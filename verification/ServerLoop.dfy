/** The loop that serves one connection, reading and writing through buffers, with its rate limiter
    and metrics. Webhook notifications are left out. */
module ServerLoop {
  import opened Wrappers
  import opened Wire
  import opened Protocol
  import opened Server
  import opened ServiceMetrics
  import opened Counting
  import SlidingWindow
  import RateLimiters

  /** How far the frames of a verdict got: all of them on success; otherwise a prefix of them, the
      whole of them unless the transport's credit has run out. */
  predicate Delivered(before: Bytes, after: Bytes, credit: nat, w: Verdict, ok: bool)
    requires AllWritable(w.replies)
  {
    if ok then after == before + EncodeAll(w.replies)
    else
      && before <= after <= before + EncodeAll(w.replies)
      && (credit == 0 || (w.next.Stop? && after == before + EncodeAll(w.replies)))
  }

  lemma EncodeOne(f: Frame)
    requires Writable(f)
    ensures EncodeAll([f]) == Encode(f)
  {
    assert [f][1..] == [];
    assert Encode(f) + [] == Encode(f);
  }

  /** All of a verdict can be sent over a transport that takes `credit` more bytes, and the connection
      goes on. */
  predicate GoesOn(w: Verdict, credit: nat)
    requires AllWritable(w.replies)
  {
    w.next.Continue? && |EncodeAll(w.replies)| <= credit
  }

  predicate Fits(f: Frame, credit: nat) {
    Writable(f) && |Encode(f)| <= credit
  }

  lemma GoesOnOne(f: Frame, credit: nat)
    ensures GoesOn(Send([f]), credit) <==> Fits(f, credit)
  {
    SendOne(f);
    if Writable(f) {
      EncodeOne(f);
    }
  }

  method SendFrame(writer: BufWriter, f: Frame) returns (r: Result<()>)
    requires writer.buffer == []
    modifies writer
    ensures r.Ok? <==> GoesOn(Send([f]), old(writer.credit))
    ensures |writer.sent| - |old(writer.sent)| == old(writer.credit) - writer.credit
    ensures Delivered(old(writer.sent), writer.sent, writer.credit, Send([f]), r.Ok?)
    ensures r.Ok? ==> writer.buffer == [] && Send([f]).next.Continue?
  {
    SendOne(f);
    GoesOnOne(f, writer.credit);
    if Writable(f) {
      EncodeOne(f);
    }
    var spill: nat := *;
    r := writer.WriteMessage(f, spill);
  }

  lemma NothingSent(before: Bytes, credit: nat)
    ensures GoesOn(Verdict([], Continue), credit) && !GoesOn(Verdict([], Stop), credit)
    ensures Send([]) == Verdict([], Continue)
    ensures Delivered(before, before, credit, Verdict([], Continue), true)
    ensures Delivered(before, before, credit, Verdict([], Stop), true)
  {
    assert before + EncodeAll([]) == before;
  }

  /** Requests within the size limit are the ones the metrics see. */
  predicate IsMetered(v: Service, f: Frame) {
    f.kind == MSG_REQUEST && InLimit(v, f)
  }

  /** "success", the status of a response that counts as one. */
  const SUCCESS: Text := [0x73, 0x75, 0x63, 0x63, 0x65, 0x73, 0x73]

  function OutcomeFor(v: Service, slot: Slot, f: Frame): Outcome {
    match v.codec.decodeRequest(f.payload)
    case None => Failed
    case Some(q) =>
      if ValidRequest(q) && v.handler.handle(slot, q).status == SUCCESS then Succeeded else Failed
  }

  /** A request that gets as far as the handler. */
  predicate ReachesHandler(v: Service, f: Frame) {
    var q := v.codec.decodeRequest(f.payload);
    q.Some? && ValidRequest(q.value)
  }

  function Outcomes(ends: seq<End>): (os: seq<Outcome>)
    ensures |os| == |ends|
  {
    seq(|ends|, i requires 0 <= i < |ends| => ends[i].outcome)
  }

  /** Since `ends`, requests have ended with the outcomes `os`, in order. */
  predicate EndedWith(ends: seq<End>, ends': seq<End>, os: seq<Outcome>) {
    Outcomes(ends') == Outcomes(ends) + os
  }

  ghost function ReprOf(metrics: ServiceMetrics?): set<object>
    reads metrics, if metrics == null then {} else {metrics.histogram}
  {
    if metrics == null then {} else metrics.Repr()
  }

  lemma NoneEnded(ends: seq<End>)
    ensures EndedWith(ends, ends, [])
  {
  }

  lemma MoreEnded(ends: seq<End>, ends': seq<End>, ends'': seq<End>, os: seq<Outcome>, more: seq<Outcome>)
    ensures EndedWith(ends, ends', os) && EndedWith(ends', ends'', more) ==> EndedWith(ends, ends'', os + more)
  {
  }

  lemma OutcomesAssoc(a: seq<Outcome>, b: seq<Outcome>, c: seq<Outcome>)
    ensures (a + b) + c == a + (b + c)
  {
  }

  method Finish(metrics: ServiceMetrics?, success: bool)
    requires metrics != null ==> metrics.Valid() && metrics.activeRequests > 0
    modifies ReprOf(metrics)
    ensures metrics != null ==> metrics.Valid() && metrics.started == old(metrics.started)
    ensures metrics != null ==> EndedWith(old(metrics.ends), metrics.ends, [if success then Succeeded else Failed])
  {
    if metrics != null {
      var elapsed: nat := *;
      metrics.RequestEnd(elapsed, success, false);
    }
  }

  /** A request whose response is too large to write, or for the transport, is never ended. */
  predicate Strands(v: Service, slot: Slot, f: Frame, credit: nat) {
    IsMetered(v, f) && ReachesHandler(v, f) && !Fits(RequestReply(v, slot, f), credit)
  }

  lemma ReplyTo(v: Service, slot: Slot, f: Frame)
    requires IsMetered(v, f)
    ensures Serve(v, slot, f) == Send([RequestReply(v, slot, f)])
  {
  }

  /** A response that cannot be written leaves its request counted as active for good; a request
      answered with an error is ended before the answer is written. */
  method ServeRequest(v: Service, slot: Slot, f: Frame, writer: BufWriter, metrics: ServiceMetrics?) returns (r: Result<()>)
    requires IsMetered(v, f) && writer.buffer == []
    requires metrics != null ==> metrics.Valid()
    modifies writer, ReprOf(metrics)
    ensures Delivered(old(writer.sent), writer.sent, writer.credit, Serve(v, slot, f), r.Ok?)
    ensures r.Ok? ==> writer.buffer == [] && Serve(v, slot, f).next.Continue?
    ensures r.Ok? <==> GoesOn(Serve(v, slot, f), old(writer.credit))
    ensures |writer.sent| - |old(writer.sent)| == old(writer.credit) - writer.credit
    ensures r.Ok? ==> !Strands(v, slot, f, old(writer.credit))
    ensures metrics != null ==> metrics.Valid() && metrics.started == old(metrics.started) + 1
    ensures metrics != null && r.Ok? ==> EndedWith(old(metrics.ends), metrics.ends, [OutcomeFor(v, slot, f)])
    ensures metrics != null ==>
              metrics.activeRequests == old(metrics.activeRequests) + if Strands(v, slot, f, old(writer.credit)) then 1 else 0
  {
    ReplyTo(v, slot, f);
    hide Delivered, Send, Serve, EncodeAll, GoesOn, Writable;
    if metrics != null {
      metrics.RequestStart();
    }
    var decoded := v.codec.decodeRequest(f.payload);
    if decoded.None? {
      Finish(metrics, false);
      r := SendFrame(writer, ErrorFrame(v, Undecodable));
      return;
    }
    var q := decoded.value;
    if !ValidRequest(q) {
      Finish(metrics, false);
      r := SendFrame(writer, ErrorFrame(v, Malformed));
      return;
    }
    var response := v.handler.handle(slot, q);
    var reply := Frame(MSG_RESPONSE, v.codec.encodeResponse(response));
    GoesOnOne(reply, writer.credit);
    r := SendFrame(writer, reply);
    if r.Ok? {
      Finish(metrics, response.status == SUCCESS);
    }
  }

  lemma StartThenEnd(f: Frame, g: Frame)
    ensures Send([f]).next.Continue? ==>
              && Send([f, g]).replies == Send([f]).replies + Send([g]).replies
              && Send([f, g]).next == Send([g]).next
              && EncodeAll(Send([f, g]).replies) == EncodeAll(Send([f]).replies) + EncodeAll(Send([g]).replies)
    ensures Send([f]).next.Stop? ==> Send([f, g]) == Send([f])
    ensures Send([f, g]).next.Continue? ==> Send([f]).next.Continue?
  {
    assert [f, g][1..] == [g] && [f][1..] == [];
    EncodeAllAppend(Send([f]).replies, Send([g]).replies);
  }

  lemma TwoGoOn(f: Frame, g: Frame, credit: nat, left: int)
    requires left == credit - |EncodeAll(Send([f]).replies)|
    ensures GoesOn(Send([f, g]), credit) ==> GoesOn(Send([f]), credit)
    ensures GoesOn(Send([f]), credit) ==> left >= 0 && (GoesOn(Send([g]), left) <==> GoesOn(Send([f, g]), credit))
  {
    StartThenEnd(f, g);
    hide Send, EncodeAll;
  }

  lemma TwoDelivered(f: Frame, g: Frame, before: Bytes, mid: Bytes, after: Bytes, credit: nat, ok: bool)
    requires Send([f]).next.Continue? && mid == before + EncodeAll(Send([f]).replies)
    requires Delivered(mid, after, credit, Send([g]), ok)
    ensures Delivered(before, after, credit, Send([f, g]), ok)
  {
    StartThenEnd(f, g);
    var a, b := EncodeAll(Send([f]).replies), EncodeAll(Send([g]).replies);
    hide Send, EncodeAll;
    assert before + (a + b) == (before + a) + b;
    assert before <= mid;
  }

  method ServeStream(v: Service, slot: Slot, f: Frame, writer: BufWriter) returns (r: Result<()>)
    requires f.kind == MSG_STREAM_REQUEST && |f.payload| <= v.config.maxRequestSize && writer.buffer == []
    modifies writer
    ensures Delivered(old(writer.sent), writer.sent, writer.credit, Serve(v, slot, f), r.Ok?)
    ensures r.Ok? ==> writer.buffer == [] && Serve(v, slot, f).next.Continue?
    ensures r.Ok? <==> GoesOn(Serve(v, slot, f), old(writer.credit))
    ensures |writer.sent| - |old(writer.sent)| == old(writer.credit) - writer.credit
  {
    if !v.config.streaming {
      return Ok(());
    }
    var decoded := v.codec.decodeRequest(f.payload);
    if decoded.None? {
      return Err(Encoding);
    }
    var start := Frame(MSG_STREAM_START, v.codec.streamStart(decoded.value, ModeOf(decoded.value.payload)));
    var end := Frame(MSG_STREAM_END, v.codec.streamEnd(v.handler.handle(slot, decoded.value)));
    StartThenEnd(start, end);
    TwoGoOn(start, end, writer.credit, writer.credit - |EncodeAll(Send([start]).replies)|);
    hide Send, EncodeAll;
    ghost var before := writer.sent;
    r := SendFrame(writer, start);
    if r.Ok? {
      ghost var mid := writer.sent;
      r := SendFrame(writer, end);
      TwoDelivered(start, end, before, mid, writer.sent, writer.credit, r.Ok?);
    }
  }

  /** One turn of the loop after a frame was read: answers it, and says whether to go on. */
  method ServeFrame(v: Service, slot: Slot, f: Frame, writer: BufWriter, metrics: ServiceMetrics?) returns (r: Result<Next>)
    requires writer.buffer == []
    requires metrics != null ==> metrics.Valid()
    modifies writer, ReprOf(metrics)
    ensures Delivered(old(writer.sent), writer.sent, writer.credit, Serve(v, slot, f), r.Ok?)
    ensures r.Ok? ==> writer.buffer == [] && r.value == Serve(v, slot, f).next
    ensures metrics != null ==> metrics.Valid()
    ensures metrics != null ==> metrics.started == old(metrics.started) + if IsMetered(v, f) then 1 else 0
    ensures metrics != null && r.Ok? ==>
              EndedWith(old(metrics.ends), metrics.ends, if IsMetered(v, f) then [OutcomeFor(v, slot, f)] else [])
    ensures metrics != null ==>
              metrics.activeRequests == old(metrics.activeRequests) + if Strands(v, slot, f, old(writer.credit)) then 1 else 0
    ensures r.Ok? ==> !Strands(v, slot, f, old(writer.credit))
    ensures r == Ok(Continue) <==> GoesOn(Serve(v, slot, f), old(writer.credit))
    ensures r == Ok(Stop) <==> IsClose(v, f)
    ensures |writer.sent| - |old(writer.sent)| == old(writer.credit) - writer.credit
  {
    hide Send, EncodeAll, OutcomeFor, Delivered, GoesOn, ReachesHandler, Fits;
    NothingSent(writer.sent, writer.credit);
    var sent: Result<()> := Ok(());
    if |f.payload| > v.config.maxRequestSize {
      sent := SendFrame(writer, ErrorFrame(v, TooLarge(|f.payload|)));
    } else if f.kind == MSG_REQUEST {
      sent := ServeRequest(v, slot, f, writer, metrics);
    } else if f.kind == MSG_STREAM_REQUEST {
      sent := ServeStream(v, slot, f, writer);
    } else if f.kind == MSG_PING {
      sent := SendFrame(writer, Frame(MSG_PONG, []));
    } else if f.kind == MSG_SCHEMA_REQUEST {
      if v.config.introspection {
        sent := SendFrame(writer, Frame(MSG_SCHEMA_RESPONSE, v.codec.encodeSchema(v.handler.schema)));
      }
    } else if f.kind == MSG_CLOSE {
      return Ok(Stop);
    }
    r := if sent.Ok? then Ok(Continue) else Err(sent.error);
  }

  /** The outcome booked for frame number `index`, if it is a metered request. */
  function Here(v: Service, id: nat, index: nat, f: Frame): seq<Outcome> {
    if index > 0 && IsMetered(v, f) then [OutcomeFor(v, Slot(id, index), f)] else []
  }

  /** The outcomes of the metered requests taken up in a conversation, in order. */
  function Booked(v: Service, id: nat, index: nat, bs: Bytes): seq<Outcome>
    decreases |bs|
  {
    match Decode(bs)
    case Complete(f, rest) =>
      DecodeConsumes(bs);
      Here(v, id, index, f) + if Answer(v, id, index, f).next.Continue? then Booked(v, id, index + 1, rest) else []
    case _ => []
  }

  /** How a connection ends: well; with an error; or with an error in the middle of a request, which is then
      never ended in the metrics. */
  datatype Fate = Well | Broken | Stranding

  /** What becomes of a conversation over a transport that takes `credit` more bytes. It ends well with a
      close, or when the input runs out after the handshake, and breaks at the first frame whose answer
      does not let it go on otherwise. */
  function FateOf(v: Service, id: nat, index: nat, bs: Bytes, credit: nat): Fate
    decreases |bs|
  {
    match Decode(bs)
    case Complete(f, rest) =>
      DecodeConsumes(bs);
      var w := Answer(v, id, index, f);
      if GoesOn(w, credit) then FateOf(v, id, index + 1, rest, credit - |EncodeAll(w.replies)|)
      else FateHere(v, id, index, f, credit)
    case _ => if index > 0 then Well else Broken
  }

  /** What becomes of a conversation that does not go on after `f`. */
  function FateHere(v: Service, id: nat, index: nat, f: Frame, credit: nat): Fate {
    if index > 0 && Strands(v, Slot(id, index), f, credit) then Stranding
    else if index > 0 && IsClose(v, f) then Well
    else Broken
  }

  predicate IsClose(v: Service, f: Frame) {
    f.kind == MSG_CLOSE && InLimit(v, f)
  }

  lemma StrandedStops(v: Service, id: nat, index: nat, f: Frame, credit: nat)
    ensures index > 0 && Strands(v, Slot(id, index), f, credit) ==> !GoesOn(Answer(v, id, index, f), credit)
  {
    if index > 0 && Strands(v, Slot(id, index), f, credit) {
      ReplyTo(v, Slot(id, index), f);
      GoesOnOne(RequestReply(v, Slot(id, index), f), credit);
    }
  }

  lemma FateStranding(v: Service, id: nat, index: nat, f: Frame, credit: nat)
    ensures FateHere(v, id, index, f, credit).Stranding? <==> index > 0 && Strands(v, Slot(id, index), f, credit)
  {
  }

  lemma FateStep(v: Service, id: nat, index: nat, bs: Bytes, credit: nat, left: int)
    requires Decode(bs).Complete?
    requires left == credit - |EncodeAll(Answer(v, id, index, Decode(bs).frame).replies)|
    ensures var f, rest := Decode(bs).frame, Decode(bs).rest;
            if GoesOn(Answer(v, id, index, f), credit) then
              && left >= 0 && FateOf(v, id, index, bs, credit) == FateOf(v, id, index + 1, rest, left)
              && (index > 0 ==> !Strands(v, Slot(id, index), f, credit))
            else FateOf(v, id, index, bs, credit) == FateHere(v, id, index, f, credit)
  {
    StrandedStops(v, id, index, Decode(bs).frame, credit);
    DecodeConsumes(bs);
    hide GoesOn, Answer, EncodeAll, Strands, Decode, FateHere;
  }

  lemma RoomForReply(v: Service, id: nat, index: nat, f: Frame, credit: nat)
    requires index > 0
    requires forall slot, f :: ReachesHandler(v, f) ==> Writable(RequestReply(v, slot, f))
    requires credit >= |EncodeAll(Answer(v, id, index, f).replies)|
    ensures !Strands(v, Slot(id, index), f, credit)
  {
    if IsMetered(v, f) && ReachesHandler(v, f) {
      var reply := RequestReply(v, Slot(id, index), f);
      ReplyTo(v, Slot(id, index), f);
      SendOne(reply);
      EncodeOne(reply);
    }
  }

  /** No request is stranded on a transport that takes the whole conversation, if every response can be
      written at all. */
  lemma {:induction false} NotStranded(v: Service, id: nat, index: nat, bs: Bytes, credit: nat)
    requires forall slot, f :: ReachesHandler(v, f) ==> Writable(RequestReply(v, slot, f))
    requires credit >= |EncodeAll(Conversation(v, id, index, bs))|
    ensures !FateOf(v, id, index, bs, credit).Stranding?
    decreases |bs|
  {
    if Decode(bs).Complete? {
      var f, rest := Decode(bs).frame, Decode(bs).rest;
      var w := Answer(v, id, index, f);
      FateStep(v, id, index, bs, credit, credit - |EncodeAll(w.replies)|);
      ConversationStep(v, id, index, bs);
      var more := if w.next.Continue? then Conversation(v, id, index + 1, rest) else [];
      EncodeAllAppend(w.replies, more);
      if index > 0 {
        RoomForReply(v, id, index, f, credit);
      }
      FateStranding(v, id, index, f, credit);
      var next, left := index + 1, credit - |EncodeAll(w.replies)|;
      hide FateOf, FateHere, Conversation, Booked, Decode, Answer, EncodeAll, Strands, ReachesHandler;
      if GoesOn(w, credit) {
        NotStranded(v, id, next, rest, left);
      }
    } else {
      ConversationOver(v, id, index, bs);
      hide Conversation, Decode;
    }
  }

  lemma ConversationStep(v: Service, id: nat, index: nat, bs: Bytes)
    requires Decode(bs).Complete?
    ensures var f, rest := Decode(bs).frame, Decode(bs).rest;
            var r := Answer(v, id, index, f);
            && |rest| < |bs|
            && Conversation(v, id, index, bs) ==
               r.replies + (if r.next.Continue? then Conversation(v, id, index + 1, rest) else [])
            && Booked(v, id, index, bs) ==
               Here(v, id, index, f) + (if r.next.Continue? then Booked(v, id, index + 1, rest) else [])
  {
    DecodeConsumes(bs);
  }

  /** What the loop has sent so far, `done`, and what it is yet to send make up the conversation. */
  predicate OnScript(done: seq<Frame>, rest: seq<Frame>, all: seq<Frame>, before: Bytes, sent: Bytes) {
    && AllWritable(done) && AllWritable(all)
    && done + rest == all
    && sent == before + EncodeAll(done)
  }

  lemma Assoc(a: Bytes, b: Bytes, c: Bytes, d: Bytes)
    ensures a + ((b + c) + d) == ((a + b) + c) + d
  {
  }

  lemma PrefixWithin(a: Bytes, b: Bytes, mid: Bytes, c: Bytes)
    requires a <= mid <= a + b
    ensures a <= mid <= (a + b) + c
  {
  }

  lemma PrefixChain(a: Bytes, b: Bytes, c: Bytes)
    requires a <= b <= c
    ensures a <= c
  {
  }

  lemma EncodeThree(fs: seq<Frame>, gs: seq<Frame>, hs: seq<Frame>)
    requires AllWritable(fs) && AllWritable(gs) && AllWritable(hs)
    ensures AllWritable(fs + gs) && AllWritable((fs + gs) + hs)
    ensures EncodeAll((fs + gs) + hs) == (EncodeAll(fs) + EncodeAll(gs)) + EncodeAll(hs)
  {
    EncodeAllAppend(fs, gs);
    EncodeAllAppend(fs + gs, hs);
  }

  /** Serving the next frame keeps to the script, and a turn that does not go on leaves the whole
      conversation sent unless the transport's credit has run out. */
  lemma ScriptStep(done: seq<Frame>, w: Verdict, rest: seq<Frame>, all: seq<Frame>, before: Bytes, sent: Bytes, after: Bytes, credit: nat, ok: bool)
    requires AllWritable(w.replies) && AllWritable(rest)
    requires OnScript(done, w.replies + rest, all, before, sent)
    requires w.next.Stop? ==> rest == []
    requires Delivered(sent, after, credit, w, ok)
    ensures ok ==> OnScript(done + w.replies, rest, all, before, after)
    ensures before <= after <= before + EncodeAll(all)
    ensures !ok && credit > 0 ==> after == before + EncodeAll(all)
    ensures ok && w.next.Stop? ==> after == before + EncodeAll(all)
  {
    var d, e, t := EncodeAll(done), EncodeAll(w.replies), EncodeAll(rest);
    assert all == (done + w.replies) + rest;
    EncodeThree(done, w.replies, rest);
    EncodeAllAppend(done, w.replies);
    hide EncodeAll, AllWritable;
    ScriptBytes(before, d, e, t, after);
    assert w.next.Stop? ==> t == [];
  }

  lemma ScriptBytes(before: Bytes, d: Bytes, e: Bytes, t: Bytes, after: Bytes)
    requires before + d <= after <= (before + d) + e
    ensures before <= after <= before + ((d + e) + t)
    ensures before + (d + e) == (before + d) + e
    ensures t == [] ==> before + ((d + e) + t) == (before + d) + e
  {
    Assoc(before, d, e, t);
    PrefixWithin(before + d, e, after, t);
    PrefixChain(before, before + d, after);
  }

  // ---------- the handshake ----------

  /** The client named in the first frame of `bs`, if it gets that far. */
  function HelloIn(config: Config, codec: Codec, bs: Bytes): Option<Text> {
    match Decode(bs)
    case Complete(f, _) =>
      if f.kind == MSG_HANDSHAKE && |f.payload| <= config.maxRequestSize then codec.decodeHello(f.payload) else None
    case _ => None
  }

  method ReadHello(config: Config, codec: Codec, reader: BufReader) returns (r: Result<Text>, f: Frame)
    modifies reader
    ensures r.Ok? <==> HelloIn(config, codec, old(reader.Unread())).Some?
    ensures r.Ok? ==>
              && HelloIn(config, codec, old(reader.Unread())) == Some(r.value)
              && Decode(old(reader.Unread())) == Complete(f, reader.Unread())
  {
    f := Frame(0, []);
    var first := reader.ReadMessage();
    if first.Err? {
      return Err(first.error), f;
    }
    f := first.value;
    if f.kind != MSG_HANDSHAKE {
      return Err(Protocol), f;
    }
    if |f.payload| > config.maxRequestSize {
      return Err(InvalidMessage), f;
    }
    var client := codec.decodeHello(f.payload);
    r := if client.Some? then Ok(client.value) else Err(Encoding);
  }

  lemma NoHelloNoReply(v: Service, id: nat, bs: Bytes)
    requires HelloIn(v.config, v.codec, bs).None?
    ensures Conversation(v, id, 0, bs) == [] && Booked(v, id, 0, bs) == []
  {
  }

  /** Acknowledges the client, or refuses it and ends the connection. */
  method Welcome(v: Service, id: nat, f: Frame, client: Text, writer: BufWriter) returns (r: Result<()>)
    requires f.kind == MSG_HANDSHAKE && |f.payload| <= v.config.maxRequestSize
    requires v.codec.decodeHello(f.payload) == Some(client)
    requires writer.buffer == []
    modifies writer
    ensures Delivered(old(writer.sent), writer.sent, writer.credit, Greet(v, id, f), r.Ok?)
    ensures r.Ok? ==> writer.buffer == [] && Greet(v, id, f).next.Continue?
    ensures r.Ok? <==> GoesOn(Greet(v, id, f), old(writer.credit))
    ensures |writer.sent| - |old(writer.sent)| == old(writer.credit) - writer.credit
  {
    if !v.admits(id) {
      r := SendFrame(writer, ErrorFrame(v, RateLimited));
      if r.Ok? {
        r := Err(ResourceExhausted);
      }
    } else {
      r := SendFrame(writer, Frame(MSG_HANDSHAKE_ACK, v.codec.encodeGreeting(v.handler.greet(id, client))));
    }
  }

  // ---------- the loop ----------

  lemma ScriptStart(all: seq<Frame>, before: Bytes)
    requires AllWritable(all)
    ensures OnScript([], all, all, before, before)
  {
    assert [] + all == all;
    assert before + EncodeAll([]) == before;
  }

  lemma ScriptSoFar(done: seq<Frame>, rest: seq<Frame>, all: seq<Frame>, before: Bytes, sent: Bytes)
    requires OnScript(done, rest, all, before, sent) && AllWritable(rest)
    ensures before <= sent <= before + EncodeAll(all)
    ensures rest == [] ==> sent == before + EncodeAll(all)
  {
    EncodeAllAppend(done, rest);
    var d, t := EncodeAll(done), EncodeAll(rest);
    assert rest == [] ==> t == [];
    hide EncodeAll, AllWritable, OnScript;
    ScriptBytes(before, d, [], t, before + d);
  }

  lemma ConversationOver(v: Service, id: nat, index: nat, bs: Bytes)
    requires !Decode(bs).Complete?
    ensures Conversation(v, id, index, bs) == [] && Booked(v, id, index, bs) == []
    ensures forall credit :: FateOf(v, id, index, bs, credit) == if index > 0 then Well else Broken
  {
  }

  /** What delivering the answer to frame number `index` does to the script. */
  lemma AnswerFollows(v: Service, id: nat, index: nat, bs: Bytes, done: seq<Frame>, all: seq<Frame>, before: Bytes, sent: Bytes, after: Bytes, credit: nat, ok: bool)
    requires Decode(bs).Complete?
    requires OnScript(done, Conversation(v, id, index, bs), all, before, sent)
    requires Delivered(sent, after, credit, Answer(v, id, index, Decode(bs).frame), ok)
    ensures before <= after <= before + EncodeAll(all)
    ensures !ok && credit > 0 ==> after == before + EncodeAll(all)
    ensures var w, rest := Answer(v, id, index, Decode(bs).frame), Decode(bs).rest;
            var here := Here(v, id, index, Decode(bs).frame);
            && |rest| < |bs|
            && (w.next.Stop? ==> Booked(v, id, index, bs) == here && (ok ==> after == before + EncodeAll(all)))
            && (w.next.Continue? ==> Booked(v, id, index, bs) == here + Booked(v, id, index + 1, rest))
            && (w.next.Continue? && ok ==>
                  OnScript(done + w.replies, Conversation(v, id, index + 1, rest), all, before, after))
  {
    ConversationStep(v, id, index, bs);
    hide EncodeAll, Conversation, Booked, OnScript, Delivered, Answer;
    var w := Answer(v, id, index, Decode(bs).frame);
    var rest := if w.next.Continue? then Conversation(v, id, index + 1, Decode(bs).rest) else [];
    ScriptStep(done, w, rest, all, before, sent, after, credit, ok);
  }

  lemma TurnAnswer(v: Service, id: nat, index: nat, f: Frame)
    requires index > 0
    ensures Answer(v, id, index, f) == Serve(v, Slot(id, index), f)
  {
  }

  lemma DeliveredWhole(before: Bytes, after: Bytes, credit: nat, w: Verdict)
    requires AllWritable(w.replies) && Delivered(before, after, credit, w, true)
    ensures after == before + EncodeAll(w.replies)
  {
  }

  lemma CreditSpent(before: Bytes, after: Bytes, credit: nat, left: nat, w: Verdict)
    requires AllWritable(w.replies)
    requires |after| - |before| == credit - left && after == before + EncodeAll(w.replies)
    ensures left == credit - |EncodeAll(w.replies)|
  {
  }

  /** The second half of a turn: answers the frame at the head of `bs`. */
  method AnswerFrame(v: Service, id: nat, index: nat, f: Frame, writer: BufWriter, metrics: ServiceMetrics?,
                     ghost bs: Bytes, ghost done: seq<Frame>, ghost all: seq<Frame>, ghost sent0: Bytes)
    returns (r: Result<Next>, ghost said: seq<Frame>)
    requires index > 0 && writer.buffer == []
    requires metrics != null ==> metrics.Valid()
    requires Decode(bs).Complete? && Decode(bs).frame == f
    requires OnScript(done, Conversation(v, id, index, bs), all, sent0, writer.sent)
    modifies writer, ReprOf(metrics)
    ensures sent0 <= writer.sent <= sent0 + EncodeAll(all)
    ensures r.Err? && writer.credit > 0 ==> writer.sent == sent0 + EncodeAll(all)
    ensures var here := Here(v, id, index, f);
            && |Decode(bs).rest| < |bs|
            && (r == Ok(Stop) ==> writer.sent == sent0 + EncodeAll(all) && here == Booked(v, id, index, bs))
            && (r == Ok(Continue) ==>
                  && writer.buffer == []
                  && OnScript(said, Conversation(v, id, index + 1, Decode(bs).rest), all, sent0, writer.sent)
                  && Booked(v, id, index, bs) == here + Booked(v, id, index + 1, Decode(bs).rest))
            && (metrics != null ==> metrics.started == old(metrics.started) + |here|)
            && (metrics != null && r.Ok? ==> EndedWith(old(metrics.ends), metrics.ends, here))
    ensures metrics != null ==> metrics.Valid()
    ensures var fate := FateOf(v, id, index, bs, old(writer.credit));
            && (r == Ok(Continue) ==> fate == FateOf(v, id, index + 1, Decode(bs).rest, writer.credit))
            && (r == Ok(Stop) ==> fate == Well)
            && (r.Err? ==> fate == if Strands(v, Slot(id, index), f, old(writer.credit)) then Stranding else Broken)
            && (r.Ok? ==> !Strands(v, Slot(id, index), f, old(writer.credit)))
    ensures metrics != null ==>
              metrics.activeRequests ==
              old(metrics.activeRequests) + if Strands(v, Slot(id, index), f, old(writer.credit)) then 1 else 0
  {
    hide EncodeAll, Conversation, Booked, OnScript, Delivered, Serve, Answer, IsMetered, Decode, EndedWith, OutcomeFor, GoesOn, Strands, FateOf;
    ghost var sent, credit := writer.sent, writer.credit;
    r := ServeFrame(v, Slot(id, index), f, writer, metrics);
    TurnAnswer(v, id, index, f);
    AnswerFollows(v, id, index, bs, done, all, sent0, sent, writer.sent, writer.credit, r.Ok?);
    ghost var w := Serve(v, Slot(id, index), f);
    FateStep(v, id, index, bs, credit, credit - |EncodeAll(w.replies)|);
    if r == Ok(Continue) {
      DeliveredWhole(sent, writer.sent, writer.credit, w);
      CreditSpent(sent, writer.sent, credit, writer.credit, w);
    }
    said := done + Serve(v, Slot(id, index), f).replies;
  }

  // ---------- reads that come too late ----------

  /** The first `n` frames of `bs`, or all of `bs` if it has fewer. */
  function FirstFrames(bs: Bytes, n: nat): (r: Bytes)
    ensures |r| <= |bs|
  {
    if n == 0 then []
    else
      match Decode(bs)
      case Complete(_, rest) =>
        DecodeConsumes(bs);
        bs[..|bs| - |rest|] + FirstFrames(rest, n - 1)
      case _ => bs
  }

  /** What a server hears of `bs` if only so many more reads are in time. */
  function Heard(bs: Bytes, left: Option<nat>): (r: Bytes)
    ensures |r| <= |bs|
  {
    match left
    case None => bs
    case Some(n) => FirstFrames(bs, n)
  }

  function OneLess(left: Option<nat>): Option<nat>
    requires left != Some(0)
  {
    match left
    case None => None
    case Some(n) => Some(n - 1)
  }

  lemma PrefixReads(bs: Bytes, more: Bytes)
    requires Decode(bs).Complete?
    ensures var rest := Decode(bs).rest;
            |rest| <= |bs| && Decode(bs[..|bs| - |rest|] + more) == Complete(Decode(bs).frame, more)
  {
    DecodeConsumes(bs);
    var e := bs[..|bs| - |Decode(bs).rest|];
    assert e[..4] == bs[..4];
    assert Decode(e) == Complete(Decode(bs).frame, []);
    DecodeStable(e, more);
    assert [] + more == more;
  }

  /** A read in time yields what it would have yielded anyway. */
  lemma HeardStep(bs: Bytes, left: Option<nat>)
    requires left != Some(0)
    ensures match Decode(bs)
            case Complete(f, rest) =>
              |rest| < |bs| && Decode(Heard(bs, left)) == Complete(f, Heard(rest, OneLess(left)))
            case _ => Heard(bs, left) == bs
  {
    if Decode(bs).Complete? {
      DecodeConsumes(bs);
      if left.Some? {
        PrefixReads(bs, FirstFrames(Decode(bs).rest, left.value - 1));
      }
    }
  }

  /** Reads one frame, in time, and answers it. */
  method Turn(v: Service, id: nat, index: nat, reader: BufReader, writer: BufWriter, metrics: ServiceMetrics?,
              left: Option<nat>, ghost done: seq<Frame>, ghost all: seq<Frame>, ghost sent0: Bytes)
    returns (r: Result<Next>, ghost said: seq<Frame>, ghost here: seq<Outcome>)
    requires index > 0 && writer.buffer == [] && left != Some(0)
    requires metrics != null ==> metrics.Valid()
    requires OnScript(done, Conversation(v, id, index, Heard(reader.Unread(), left)), all, sent0, writer.sent)
    modifies reader, writer, ReprOf(metrics)
    ensures sent0 <= writer.sent <= sent0 + EncodeAll(all)
    ensures r.Err? && writer.credit > 0 ==> writer.sent == sent0 + EncodeAll(all)
    ensures var heard, heard' := Heard(old(reader.Unread()), left), Heard(reader.Unread(), OneLess(left));
            && (r == Ok(Stop) ==>
                  && writer.sent == sent0 + EncodeAll(all) && here == Booked(v, id, index, heard)
                  && FateOf(v, id, index, heard, old(writer.credit)) == Well)
            && (r == Ok(Continue) ==>
                  && writer.buffer == [] && |reader.Unread()| < |old(reader.Unread())|
                  && OnScript(said, Conversation(v, id, index + 1, heard'), all, sent0, writer.sent)
                  && Booked(v, id, index, heard) == here + Booked(v, id, index + 1, heard')
                  && FateOf(v, id, index, heard, old(writer.credit)) == FateOf(v, id, index + 1, heard', writer.credit))
            && (r.Err? ==> FateOf(v, id, index, heard, old(writer.credit)) != Well)
    ensures metrics != null ==> metrics.Valid()
    ensures metrics != null && r.Ok? ==>
              metrics.started == old(metrics.started) + |here| && EndedWith(old(metrics.ends), metrics.ends, here)
    ensures metrics != null ==>
              metrics.activeRequests ==
              old(metrics.activeRequests)
              + if r != Ok(Continue) && FateOf(v, id, index, Heard(old(reader.Unread()), left), old(writer.credit)).Stranding? then 1 else 0
  {
    hide EncodeAll, Conversation, Booked, OnScript, IsMetered, Decode, FateOf, Strands, Heard;
    said, here := done, [];
    ghost var heard := Heard(reader.Unread(), left);
    HeardStep(reader.Unread(), left);
    var msg := reader.ReadMessage();
    if msg.Err? {
      ConversationOver(v, id, index, heard);
      ScriptSoFar(done, [], all, sent0, writer.sent);
      NoneEnded(if metrics == null then [] else metrics.ends);
      return Ok(Stop), said, here;
    }
    r, said := AnswerFrame(v, id, index, msg.value, writer, metrics, heard, done, all, sent0);
    assert r.Ok? ==> r.value.Continue? || r.value.Stop?;
    here := Here(v, id, index, msg.value);
  }

  lemma NothingHeard(v: Service, id: nat, index: nat, bs: Bytes)
    ensures Conversation(v, id, index, Heard(bs, Some(0))) == [] && Booked(v, id, index, Heard(bs, Some(0))) == []
    ensures forall credit :: FateOf(v, id, index, Heard(bs, Some(0)), credit) == if index > 0 then Well else Broken
  {
    ConversationOver(v, id, index, []);
  }

  /** The loop after the handshake: a read times out, fails, or yields a frame to answer. Only the first
      `inTime` reads do not time out, if that is a number. */
  method ServeLoop(v: Service, id: nat, reader: BufReader, writer: BufWriter, metrics: ServiceMetrics?,
                   inTime: Option<nat>, ghost greeted: seq<Frame>, ghost all: seq<Frame>, ghost sent0: Bytes)
    returns (r: Result<()>)
    requires writer.buffer == []
    requires metrics != null ==> metrics.Valid()
    requires OnScript(greeted, Conversation(v, id, 1, Heard(reader.Unread(), inTime)), all, sent0, writer.sent)
    modifies reader, writer, ReprOf(metrics)
    ensures sent0 <= writer.sent <= sent0 + EncodeAll(all)
    ensures writer.credit > 0 || r.Ok? ==> writer.sent == sent0 + EncodeAll(all)
    ensures metrics != null ==> metrics.Valid()
    ensures var heard := Heard(old(reader.Unread()), inTime);
            var fate := FateOf(v, id, 1, heard, old(writer.credit));
            && (r.Ok? <==> fate == Well)
            && (metrics != null ==> metrics.activeRequests == old(metrics.activeRequests) + if fate.Stranding? then 1 else 0)
            && (metrics != null && r.Ok? ==>
                  && metrics.started == old(metrics.started) + |Booked(v, id, 1, heard)|
                  && EndedWith(old(metrics.ends), metrics.ends, Booked(v, id, 1, heard)))
  {
    ghost var done, booked: seq<Outcome> := greeted, [];
    NoneEnded(if metrics == null then [] else metrics.ends);
    var index, left := 1, inTime;
    hide EncodeAll, Conversation, Booked, OnScript, FateOf, Heard, EndedWith;
    while true
      invariant writer.buffer == [] && index > 0
      invariant OnScript(done, Conversation(v, id, index, Heard(reader.Unread(), left)), all, sent0, writer.sent)
      invariant metrics != null ==>
                  && metrics.Valid()
                  && metrics.activeRequests == old(metrics.activeRequests)
                  && metrics.started == old(metrics.started) + |booked|
                  && EndedWith(old(metrics.ends), metrics.ends, booked)
      invariant booked + Booked(v, id, index, Heard(reader.Unread(), left)) == Booked(v, id, 1, Heard(old(reader.Unread()), inTime))
      invariant FateOf(v, id, index, Heard(reader.Unread(), left), writer.credit) ==
                FateOf(v, id, 1, Heard(old(reader.Unread()), inTime), old(writer.credit))
      decreases |reader.Unread()|
    {
      if left == Some(0) {
        NothingHeard(v, id, index, reader.Unread());
        ScriptSoFar(done, [], all, sent0, writer.sent);
        break;
      }
      var turn: Result<Next>;
      ghost var here: seq<Outcome>;
      ghost var before := if metrics == null then [] else metrics.ends;
      turn, done, here := Turn(v, id, index, reader, writer, metrics, left, done, all, sent0);
      if turn.Err? {
        return Err(turn.error);
      }
      left, index := OneLess(left), index + 1;
      if metrics != null {
        MoreEnded(old(metrics.ends), before, metrics.ends, booked, here);
      }
      OutcomesAssoc(booked, here, if turn.value.Stop? then [] else Booked(v, id, index, Heard(reader.Unread(), left)));
      booked := booked + here;
      if turn.value.Stop? {
        break;
      }
    }
    r := Ok(());
  }

  lemma NothingToSay(v: Service, id: nat, bs: Bytes, sent: Bytes)
    requires HelloIn(v.config, v.codec, bs).None?
    ensures sent + EncodeAll(Conversation(v, id, 0, bs)) == sent && Booked(v, id, 0, bs) == []
    ensures forall credit :: FateOf(v, id, 0, bs, credit) == Broken
  {
    NoHelloNoReply(v, id, bs);
  }

  /** As many reads in time as the loop has, and the handshake's, which does not time out. */
  function AndHello(inTime: Option<nat>): (left: Option<nat>)
    ensures left != Some(0) && OneLess(left) == inTime
  {
    match inTime
    case None => None
    case Some(n) => Some(n + 1)
  }

  /** The handshake: on success the loop can take over; otherwise the whole conversation has been
      sent, unless the transport failed. The limiter is asked about the client named, and nobody else. */
  method Open(config: Config, codec: Codec, handler: Handler, id: nat, reader: BufReader, writer: BufWriter,
              limiter: RateLimiters.ClientLimiter, now: nat, ghost inTime: Option<nat>)
    returns (r: Result<()>, v: Service, ghost greeted: seq<Frame>)
    requires writer.buffer == []
    requires limiter.Valid() && limiter.clock <= now
    modifies reader, writer, limiter
    ensures v.config == config && v.codec == codec && v.handler == handler
    ensures limiter.Valid()
    ensures AskedLimiter(HelloIn(config, codec, old(reader.Unread())), limiter.policy, old(limiter.calls), limiter.calls, now, v.admits(id))
    ensures var heard, heard' := Heard(old(reader.Unread()), AndHello(inTime)), Heard(reader.Unread(), inTime);
            var all := Conversation(v, id, 0, heard);
            && old(writer.sent) <= writer.sent <= old(writer.sent) + EncodeAll(all)
            && (r.Err? && writer.credit > 0 ==> writer.sent == old(writer.sent) + EncodeAll(all))
            && (r.Ok? ==>
                  && writer.buffer == []
                  && OnScript(greeted, Conversation(v, id, 1, heard'), all, old(writer.sent), writer.sent)
                  && Booked(v, id, 0, heard) == Booked(v, id, 1, heard'))
            && FateOf(v, id, 0, heard, old(writer.credit)) == if r.Ok? then FateOf(v, id, 1, heard', writer.credit) else Broken
  {
    hide EncodeAll, Conversation, Booked, OnScript, Delivered, Greet, SlidingWindow.Admits, SlidingWindow.TracksClient;
    hide GoesOn, Strands, FateOf, Heard;
    ghost var bs, sent, credit := reader.Unread(), writer.sent, writer.credit;
    ghost var heard := Heard(bs, AndHello(inTime));
    HeardStep(bs, AndHello(inTime));
    v, greeted := Service(config, codec, handler, _ => false), [];
    var hello, f := ReadHello(config, codec, reader);
    if hello.Err? {
      NothingToSay(v, id, heard, sent);
      return Err(hello.error), v, greeted;
    }
    var admitted := limiter.Check(hello.value, now);
    v := Service(config, codec, handler, _ => admitted);
    ghost var all := Conversation(v, id, 0, heard);
    ScriptStart(all, sent);
    r := Welcome(v, id, f, hello.value, writer);
    AnswerFollows(v, id, 0, heard, [], all, sent, sent, writer.sent, writer.credit, r.Ok?);
    ghost var w := Greet(v, id, f);
    FateStep(v, id, 0, heard, credit, credit - |EncodeAll(w.replies)|);
    if r.Ok? {
      DeliveredWhole(sent, writer.sent, writer.credit, w);
      CreditSpent(sent, writer.sent, credit, writer.credit, w);
    }
    greeted := [] + w.replies;
  }

  /** A connection that names a client is one call for that client and gets the answer its history gives;
      one that does not asks the limiter nothing. */
  ghost predicate AskedLimiter(hello: Option<Text>, policy: SlidingWindow.Policy, before: map<Text, seq<nat>>,
                               after: map<Text, seq<nat>>, now: nat, admitted: bool)
  {
    match hello
    case None => after == before
    case Some(client) =>
      var history := if client in before then before[client] else [];
      && after == before[client := history + [now]]
      && admitted == SlidingWindow.Admits(policy, history, now)
  }

  /** Serves one connection. `v` is the service with the limiter's answer to this connection filled in. Only
      the first `inTime` reads of the loop do not time out, if that is a number; what the server hears is
      then the input up to there. All that is sent is a prefix of the conversation with what it hears, and it
      is all of it unless the transport failed. On a normal end every metered request has been started
      once and ended once, with its own outcome; a connection leaves one request active for good exactly
      if its conversation breaks at one that has reached the handler. */
  method HandleConnection(config: Config, codec: Codec, handler: Handler, id: nat, reader: BufReader, writer: BufWriter,
                          limiter: RateLimiters.ClientLimiter, metrics: ServiceMetrics?, now: nat, inTime: Option<nat>)
    returns (r: Result<()>, v: Service)
    requires writer.buffer == []
    requires limiter.Valid() && limiter.clock <= now
    requires metrics != null ==> metrics.Valid()
    modifies reader, writer, limiter, ReprOf(metrics)
    ensures v.config == config && v.codec == codec && v.handler == handler
    ensures limiter.Valid()
    ensures AskedLimiter(HelloIn(config, codec, old(reader.Unread())), limiter.policy, old(limiter.calls), limiter.calls, now, v.admits(id))
    ensures metrics != null ==> metrics.Valid()
    ensures var heard := Heard(old(reader.Unread()), AndHello(inTime));
            var all, fate := EncodeAll(Conversation(v, id, 0, heard)), FateOf(v, id, 0, heard, old(writer.credit));
            && old(writer.sent) <= writer.sent <= old(writer.sent) + all
            && (writer.credit > 0 || r.Ok? ==> writer.sent == old(writer.sent) + all)
            && (r.Ok? <==> fate == Well)
            && (metrics != null ==> metrics.activeRequests == old(metrics.activeRequests) + if fate.Stranding? then 1 else 0)
            && (metrics != null && r.Ok? ==>
                  && metrics.started == old(metrics.started) + |Booked(v, id, 0, heard)|
                  && EndedWith(old(metrics.ends), metrics.ends, Booked(v, id, 0, heard)))
  {
    hide EncodeAll, Conversation, Booked, OnScript, HelloIn, FateOf, Heard, EndedWith, SlidingWindow.Admits;
    ghost var greeted, sent := [], writer.sent;
    ghost var heard := Heard(reader.Unread(), AndHello(inTime));
    r, v, greeted := Open(config, codec, handler, id, reader, writer, limiter, now, inTime);
    if r.Ok? {
      r := ServeLoop(v, id, reader, writer, metrics, inTime, greeted, Conversation(v, id, 0, heard), sent);
    }
  }

  // ---------- what is booked is what was answered ----------

  /** A frame that answers a request successfully. */
  predicate IsSuccess(c: Codec, f: Frame) {
    f.kind == MSG_RESPONSE && c.decodeResponse(f.payload).Some? && c.decodeResponse(f.payload).value.status == SUCCESS
  }

  function Successful(c: Codec): Frame -> bool {
    (f: Frame) => IsSuccess(c, f)
  }

  predicate IsSucceeded(o: Outcome) { o.Succeeded? }

  /** The outcome booked for a request that was answered is a success exactly if its answer is; and no
      connection ever books a timeout. */
  lemma OutcomeIsReply(v: Service, slot: Slot, f: Frame)
    requires Lawful(v.codec) && IsMetered(v, f)
    ensures OutcomeFor(v, slot, f).Succeeded? <==> IsSuccess(v.codec, RequestReply(v, slot, f))
    ensures !OutcomeFor(v, slot, f).TimedOut?
    ensures OutcomeFor(v, slot, f).Succeeded? ==> ReachesHandler(v, f)
  {
  }

  /** A frame that is not a metered request gets no response. */
  lemma OthersGetNoResponse(v: Service, id: nat, index: nat, f: Frame)
    requires index == 0 || !IsMetered(v, f)
    ensures var replies := Answer(v, id, index, f).replies;
            forall i :: 0 <= i < |replies| ==> !IsSuccess(v.codec, replies[i])
  {
    if index == 0 {
      HandshakeGetsOneReply(v, id, f);
      if f.kind == MSG_HANDSHAKE && v.codec.decodeHello(f.payload).Some? {
        SendOne(ErrorFrame(v, RateLimited));
      }
    } else if !InLimit(v, f) {
      OversizeGetsError(v, Slot(id, index), f);
    } else if f.kind == MSG_STREAM_REQUEST {
      StreamGetsStartAndEnd(v, Slot(id, index), f);
      StreamServed(v, Slot(id, index), f);
      var q := v.codec.decodeRequest(f.payload);
      if v.config.streaming && q.Some? {
        SendTwo(StreamStart(v, q.value), StreamEnd(v, Slot(id, index), q.value));
      }
    } else if f.kind == MSG_SCHEMA_REQUEST {
      SchemaServed(v, Slot(id, index), f);
      SendOne(SchemaFrame(v));
    } else if f.kind == MSG_PING {
      PingGetsPong(v, Slot(id, index), f);
    }
  }

  lemma AnswerBooked(v: Service, id: nat, index: nat, f: Frame, credit: nat)
    requires Lawful(v.codec)
    requires index > 0 ==> !Strands(v, Slot(id, index), f, credit)
    requires credit >= |EncodeAll(Answer(v, id, index, f).replies)|
    ensures Count(Here(v, id, index, f), IsSucceeded) ==
            Count(Answer(v, id, index, f).replies, Successful(v.codec))
  {
    var replies := Answer(v, id, index, f).replies;
    var slot := Slot(id, index);
    if index > 0 && IsMetered(v, f) {
      var reply := RequestReply(v, slot, f);
      OutcomeIsReply(v, slot, f);
      ReplyTo(v, slot, f);
      SendOne(reply);
      CountOne(OutcomeFor(v, slot, f), IsSucceeded);
      CountOne(reply, Successful(v.codec));
      if Writable(reply) {
        EncodeOne(reply);
      }
    } else {
      OthersGetNoResponse(v, id, index, f);
      CountZero(replies, Successful(v.codec));
    }
  }

  lemma CountOne<T>(x: T, p: T -> bool)
    ensures Count([x], p) == if p(x) then 1 else 0
  {
    assert [x][1..] == [];
  }

  lemma NoneStrandedHere(v: Service, id: nat, index: nat, bs: Bytes, credit: nat)
    requires Decode(bs).Complete? && !FateOf(v, id, index, bs, credit).Stranding?
    ensures index > 0 ==> !Strands(v, Slot(id, index), Decode(bs).frame, credit)
  {
    var f := Decode(bs).frame;
    FateStep(v, id, index, bs, credit, credit - |EncodeAll(Answer(v, id, index, f).replies)|);
    FateStranding(v, id, index, f, credit);
    hide Strands, FateHere, Answer, EncodeAll, Decode, GoesOn;
  }

  /** One frame's share of `SuccessesAreSent`, and what is left for the rest. */
  lemma SuccessesHere(v: Service, id: nat, index: nat, next: nat, bs: Bytes, credit: nat)
    returns (more: seq<Frame>, booked: seq<Outcome>, left: nat)
    requires next == index + 1
    requires Lawful(v.codec) && !FateOf(v, id, index, bs, credit).Stranding?
    requires credit >= |EncodeAll(Conversation(v, id, index, bs))| && Decode(bs).Complete?
    ensures var w, rest := Answer(v, id, index, Decode(bs).frame), Decode(bs).rest;
            && |rest| < |bs|
            && (w.next.Stop? ==> more == [] && booked == [])
            && (w.next.Continue? ==>
                  && more == Conversation(v, id, next, rest) && booked == Booked(v, id, next, rest)
                  && !FateOf(v, id, next, rest, left).Stranding? && left >= |EncodeAll(more)|)
    ensures Count(Booked(v, id, index, bs), IsSucceeded) - Count(booked, IsSucceeded) ==
            Count(Conversation(v, id, index, bs), Successful(v.codec)) - Count(more, Successful(v.codec))
  {
    var f, rest := Decode(bs).frame, Decode(bs).rest;
    var w := Answer(v, id, index, f);
    ConversationStep(v, id, index, bs);
    more := if w.next.Continue? then Conversation(v, id, next, rest) else [];
    booked := if w.next.Continue? then Booked(v, id, next, rest) else [];
    EncodeAllAppend(w.replies, more);
    left := credit - |EncodeAll(w.replies)|;
    FateStep(v, id, index, bs, credit, left);
    NoneStrandedHere(v, id, index, bs, credit);
    AnswerBooked(v, id, index, f, credit);
    CountAppend(w.replies, more, Successful(v.codec));
    CountAppend(Here(v, id, index, f), booked, IsSucceeded);
    hide FateOf, FateHere, Conversation, Booked, Decode, Answer, EncodeAll, Strands, Count, Here, Successful;
  }

  /** On a transport that takes the whole conversation and strands nobody, the successes booked number the
      successful responses sent. */
  lemma {:induction false} SuccessesAreSent(v: Service, id: nat, index: nat, bs: Bytes, credit: nat)
    requires Lawful(v.codec) && !FateOf(v, id, index, bs, credit).Stranding?
    requires credit >= |EncodeAll(Conversation(v, id, index, bs))|
    ensures Count(Booked(v, id, index, bs), IsSucceeded) == Count(Conversation(v, id, index, bs), Successful(v.codec))
    decreases |bs|
  {
    if Decode(bs).Complete? {
      var next := index + 1;
      var more, booked, left := SuccessesHere(v, id, index, next, bs, credit);
      hide FateOf, Conversation, Booked, Decode, Answer, EncodeAll, Count, Successful;
      if Answer(v, id, index, Decode(bs).frame).next.Continue? {
        SuccessesAreSent(v, id, next, Decode(bs).rest, left);
      } else {
        CountZero(booked, IsSucceeded);
        CountZero(more, Successful(v.codec));
      }
    } else {
      ConversationOver(v, id, index, bs);
      hide Conversation, Booked, Decode;
      CountZero(Booked(v, id, index, bs), IsSucceeded);
      CountZero(Conversation(v, id, index, bs), Successful(v.codec));
    }
  }
}
