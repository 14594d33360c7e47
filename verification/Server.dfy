/** The conversation a server holds with the bytes it is sent, and the proof that the step-by-step
    server of `Connection` holds it under every schedule. `ServerLoop` proves the same of the loop. */
module Server {
  import opened Wrappers
  import opened Wire
  import opened Protocol
  import opened Connection
  import opened Sequences

  // ---------- the conversation ----------

  /** The frames sent on connection `id` in answer to the bytes `bs`, from frame number `index` on, up
      to the first frame that ends the connection or the first bytes that are not a frame. */
  function Conversation(v: Service, id: nat, index: nat, bs: Bytes): (out: seq<Frame>)
    ensures AllWritable(out)
    decreases |bs|
  {
    match Decode(bs)
    case Complete(f, rest) =>
      DecodeConsumes(bs);
      var r := Answer(v, id, index, f);
      r.replies + if r.next.Continue? then Conversation(v, id, index + 1, rest) else []
    case _ => []
  }

  /** The same, for a list of frames. */
  function Script(v: Service, id: nat, index: nat, fs: seq<Frame>): (out: seq<Frame>)
    ensures AllWritable(out)
    decreases |fs|
  {
    if fs == [] then []
    else
      var r := Answer(v, id, index, fs[0]);
      r.replies + if r.next.Continue? then Script(v, id, index + 1, fs[1..]) else []
  }

  /** Sent any list of frames, then anything that is not a whole frame, the server answers the
      handshake and then each frame in order, up to the first one that ends the connection. */
  lemma {:induction false} ConversationIsScript(v: Service, id: nat, index: nat, fs: seq<Frame>, tail: Bytes)
    requires AllWritable(fs) && !Decode(tail).Complete?
    ensures Conversation(v, id, index, EncodeAll(fs) + tail) == Script(v, id, index, fs)
    decreases |fs|
  {
    if fs == [] {
      assert EncodeAll(fs) + tail == tail;
    } else {
      var rest := EncodeAll(fs[1..]) + tail;
      assert EncodeAll(fs) + tail == Encode(fs[0]) + rest;
      DecodeEncode(fs[0], rest);
      ConversationIsScript(v, id, index + 1, fs[1..], tail);
    }
  }

  // ---------- what a conversation looks like ----------

  lemma ScriptStep(v: Service, id: nat, index: nat, f: Frame, fs: seq<Frame>)
    requires index > 0
    ensures Script(v, id, index, [f] + fs) ==
            Serve(v, Slot(id, index), f).replies
            + if Serve(v, Slot(id, index), f).next.Continue? then Script(v, id, index + 1, fs) else []
  {
    assert ([f] + fs)[0] == f && ([f] + fs)[1..] == fs;
  }

  /** After a close nothing more is answered, whatever else was sent. */
  lemma NothingAfterClose(v: Service, id: nat, index: nat, f: Frame, fs: seq<Frame>)
    requires index > 0 && InLimit(v, f) && f.kind == MSG_CLOSE
    ensures Script(v, id, index, [f] + fs) == []
  {
    ScriptStep(v, id, index, f, fs);
    CloseEnds(v, Slot(id, index), f);
  }

  /** A ping is answered with a pong and the conversation goes on. */
  lemma PingThenMore(v: Service, id: nat, index: nat, f: Frame, fs: seq<Frame>)
    requires index > 0 && InLimit(v, f) && f.kind == MSG_PING
    ensures Script(v, id, index, [f] + fs) == [Frame(MSG_PONG, [])] + Script(v, id, index + 1, fs)
  {
    ScriptStep(v, id, index, f, fs);
    PingGetsPong(v, Slot(id, index), f);
  }

  /** Unless it ends the connection, a request is answered with its one reply and the conversation goes on. */
  lemma RequestThenMore(v: Service, id: nat, index: nat, f: Frame, fs: seq<Frame>)
    requires index > 0 && f.kind == MSG_REQUEST && !EndsConnection(v, Slot(id, index), f)
    ensures Script(v, id, index, [f] + fs) == [RequestReply(v, Slot(id, index), f)] + Script(v, id, index + 1, fs)
  {
    var slot := Slot(id, index);
    ScriptStep(v, id, index, f, fs);
    EndsIff(v, slot, f);
    RequestGetsOneReply(v, slot, f);
    SendOne(RequestReply(v, slot, f));
  }

  /** One of the frames `fs`, the first of them number `index`, ends the connection. */
  predicate SomeEnds(v: Service, id: nat, index: nat, fs: seq<Frame>)
    decreases |fs|
  {
    fs != [] && (EndsConnection(v, Slot(id, index), fs[0]) || SomeEnds(v, id, index + 1, fs[1..]))
  }

  lemma FramesAssoc(a: seq<Frame>, b: seq<Frame>, c: seq<Frame>)
    ensures (a + b) + c == a + (b + c)
  {
  }

  /** The conversation stops at the first frame that ends the connection, and only there. */
  lemma {:induction false} ScriptStopsAtEnd(v: Service, id: nat, index: nat, fs: seq<Frame>, after: nat, more: seq<Frame>)
    requires index > 0 && after == index + |fs|
    ensures Script(v, id, index, fs + more) ==
            Script(v, id, index, fs) + if SomeEnds(v, id, index, fs) then [] else Script(v, id, after, more)
    decreases |fs|
  {
    if fs == [] {
      assert fs + more == more;
    } else {
      var f, rest, next := fs[0], fs[1..], index + 1;
      assert fs == [f] + rest && fs + more == [f] + (rest + more);
      ScriptStep(v, id, index, f, rest);
      ScriptStep(v, id, index, f, rest + more);
      EndsIff(v, Slot(id, index), f);
      ScriptStopsAtEnd(v, id, next, rest, after, more);
      hide Script, Serve, EndsConnection;
      var tail := if SomeEnds(v, id, next, rest) then [] else Script(v, id, after, more);
      FramesAssoc(Serve(v, Slot(id, index), f).replies, Script(v, id, next, rest), tail);
    }
  }

  // ---------- the concurrent server ----------

  function AllReplies(served: seq<Exchange>): seq<Frame> {
    if served == [] then [] else AllReplies(Front(served)) + Last(served).replies
  }

  lemma PushExchange(served: seq<Exchange>, x: Exchange)
    ensures AllReplies(served + [x]) == AllReplies(served) + x.replies
  {
    assert (served + [x])[..|served|] == served;
  }

  /** What the server will still say about the bytes it has not read as frames. */
  function ToCome(v: Service, s: Conn): seq<Frame> {
    if s.peer == Replying(Stop) then []
    else Conversation(v, s.id, |s.served|, s.serverBuffer + s.toServer)
  }

  /** `s` is what has become of connection `id` after the client sent `input` and read nothing yet. */
  predicate Tells(v: Service, s: Conn, id: nat, input: Bytes) {
    var said, all := AllReplies(s.served), Conversation(v, id, 0, input);
    && s.id == id
    && AllWritable(said)
    && (if s.peer.Gone? then
          && s.serverOut == [] && s.toClient <= EncodeAll(said) && said <= all
        else
          && s.toClient + s.serverOut == EncodeAll(said)
          && said + ToCome(v, s) == all
          && (!s.peer.Replying? ==> s.serverOut == []))
  }

  lemma PrefixOf(a: Bytes, b: Bytes, c: Bytes)
    requires a + b == c
    ensures a <= c
  {
  }

  lemma TellsTake(v: Service, s: Conn, id: nat, input: Bytes)
    requires Tells(v, s, id, input)
    requires s.peer.AwaitHandshake? || s.peer.LoopHead?
    ensures Tells(v, TakeFrame(v, s), id, input)
  {
    var bs := s.serverBuffer + s.toServer;
    DecodeStable(s.serverBuffer, s.toServer);
    match Decode(s.serverBuffer)
    case Incomplete =>
    case BadLength => TellsDie(v, s, id, input);
    case Complete(f, rest) =>
      var r := Answer(v, id, |s.served|, f);
      TakenTells(v, s, id, input, f, rest, r);
  }

  lemma TakenTells(v: Service, s: Conn, id: nat, input: Bytes, f: Frame, rest: Bytes, r: Verdict)
    requires Tells(v, s, id, input)
    requires s.peer.AwaitHandshake? || s.peer.LoopHead?
    requires Decode(s.serverBuffer) == Complete(f, rest)
    requires Decode(s.serverBuffer + s.toServer) == Complete(f, rest + s.toServer)
    requires r == Answer(v, id, |s.served|, f)
    ensures Tells(v, TakeFrame(v, s), id, input)
  {
    hide Answer, Decode;
    var s' := TakeFrame(v, s);
    var said := AllReplies(s.served);
    PushExchange(s.served, Exchange(f, r.replies));
    EncodeAllAppend(said, r.replies);
    assert ToCome(v, s) == r.replies + if r.next.Continue? then Conversation(v, id, |s.served| + 1, rest + s.toServer) else [];
    assert said + (r.replies + ToCome(v, s')) == (said + r.replies) + ToCome(v, s');
    assert s.toClient + s.serverOut == s.toClient;
  }

  lemma TellsDie(v: Service, s: Conn, id: nat, input: Bytes)
    requires Tells(v, s, id, input)
    ensures Tells(v, Dead(s), id, input)
  {
    if !s.peer.Gone? {
      PrefixOf(s.toClient, s.serverOut, EncodeAll(AllReplies(s.served)));
    }
  }

  lemma TellsPull(v: Service, s: Conn, id: nat, input: Bytes, n: nat)
    requires Tells(v, s, id, input) && n <= |s.toServer|
    ensures Tells(v, s.(serverBuffer := s.serverBuffer + s.toServer[..n], toServer := s.toServer[n..]), id, input)
  {
    hide Conversation, AllReplies, EncodeAll;
    assert s.toServer[..n] + s.toServer[n..] == s.toServer;
    assert s.serverBuffer + s.toServer[..n] + s.toServer[n..] == s.serverBuffer + s.toServer;
  }

  lemma TellsFlush(v: Service, s: Conn, id: nat, input: Bytes, n: nat)
    requires Tells(v, s, id, input) && s.peer.Replying? && n <= |s.serverOut|
    ensures Tells(v, s.(toClient := s.toClient + s.serverOut[..n], serverOut := s.serverOut[n..]), id, input)
  {
    hide Conversation, AllReplies, EncodeAll;
    assert s.serverOut[..n] + s.serverOut[n..] == s.serverOut;
    assert s.toClient + s.serverOut[..n] + s.serverOut[n..] == s.toClient + s.serverOut;
  }

  lemma TellsFinish(v: Service, s: Conn, id: nat, input: Bytes)
    requires Tells(v, s, id, input) && s.peer.Replying? && s.serverOut == []
    ensures Tells(v, s.(peer := if s.peer.next.Continue? then LoopHead else Gone), id, input)
  {
    assert s.toClient + s.serverOut == s.toClient;
    if s.peer.next.Stop? {
      assert AllReplies(s.served) + [] == AllReplies(s.served);
    }
  }

  lemma TellsStep(v: Service, s: Conn, id: nat, input: Bytes, m: Move)
    requires Tells(v, s, id, input)
    ensures Tells(v, Step(v, s, m), id, input)
  {
    hide Tells, TakeFrame;
    match m
    case Pull(n) =>
      if !s.peer.Gone? && n <= |s.toServer| {
        TellsPull(v, s, id, input, n);
      }
    case Take =>
      if s.peer.AwaitHandshake? || s.peer.LoopHead? {
        TellsTake(v, s, id, input);
      }
    case Flush(n) =>
      if s.peer.Replying? && n <= |s.serverOut| {
        TellsFlush(v, s, id, input, n);
      }
    case Finish =>
      if s.peer.Replying? && s.serverOut == [] {
        TellsFinish(v, s, id, input);
      }
    case Die => TellsDie(v, s, id, input);
  }

  lemma {:induction false} TellsPlay(v: Service, s: Conn, id: nat, input: Bytes, ms: seq<Move>)
    requires Tells(v, s, id, input)
    ensures Tells(v, Play(v, s, ms), id, input)
    decreases |ms|
  {
    if ms != [] {
      TellsStep(v, s, id, input, ms[0]);
      hide Tells, Step;
      TellsPlay(v, Step(v, s, ms[0]), id, input, ms[1..]);
    }
  }

  // ---------- a server nothing happens to ----------

  predicate NoDie(ms: seq<Move>) {
    forall i :: 0 <= i < |ms| ==> !ms[i].Die?
  }

  /** A server that ended of its own accord has sent its whole conversation. */
  predicate EndedWhole(v: Service, s: Conn, id: nat, input: Bytes) {
    s.peer.Gone? ==> s.toClient == EncodeAll(Conversation(v, id, 0, input))
  }

  lemma BadFrameEndsWhole(v: Service, s: Conn, id: nat, input: Bytes)
    requires Tells(v, s, id, input)
    requires s.peer.AwaitHandshake? || s.peer.LoopHead?
    ensures EndedWhole(v, TakeFrame(v, s), id, input)
  {
    if Decode(s.serverBuffer).BadLength? {
      DecodeStable(s.serverBuffer, s.toServer);
      SaidAll(v, s, id, input);
    }
  }

  /** With nothing left to say and nothing left to flush, all has been sent. */
  lemma SaidAll(v: Service, s: Conn, id: nat, input: Bytes)
    requires Tells(v, s, id, input) && !s.peer.Gone? && s.serverOut == [] && ToCome(v, s) == []
    ensures s.toClient == EncodeAll(Conversation(v, id, 0, input))
  {
    assert s.toClient + s.serverOut == s.toClient;
    assert AllReplies(s.served) + [] == AllReplies(s.served);
  }

  lemma EndedWholeStep(v: Service, s: Conn, id: nat, input: Bytes, m: Move)
    requires Tells(v, s, id, input) && EndedWhole(v, s, id, input) && !m.Die?
    ensures EndedWhole(v, Step(v, s, m), id, input)
  {
    hide Tells, TakeFrame, Conversation, EncodeAll;
    match m
    case Take =>
      if s.peer.AwaitHandshake? || s.peer.LoopHead? {
        BadFrameEndsWhole(v, s, id, input);
      }
    case Finish =>
      if s.peer == Replying(Stop) && s.serverOut == [] {
        SaidAll(v, s, id, input);
      }
    case _ =>
  }

  lemma {:induction false} EndedWholePlay(v: Service, s: Conn, id: nat, input: Bytes, ms: seq<Move>)
    requires Tells(v, s, id, input) && EndedWhole(v, s, id, input) && NoDie(ms)
    ensures EndedWhole(v, Play(v, s, ms), id, input)
    decreases |ms|
  {
    if ms != [] {
      assert !ms[0].Die?;
      TellsStep(v, s, id, input, ms[0]);
      EndedWholeStep(v, s, id, input, ms[0]);
      hide Tells, EndedWhole, Step;
      EndedWholePlay(v, Step(v, s, ms[0]), id, input, ms[1..]);
    }
  }

  /** However its reads are chunked, its flushes delayed and its steps scheduled, a server only ever
      sends a prefix of its conversation. It has sent all of it once it waits at its loop head with no
      whole frame left to read, and also when it has ended, unless something else ended it. */
  lemma ServerHoldsConversation(v: Service, id: nat, input: Bytes, ms: seq<Move>)
    ensures var s := Play(v, Fresh(id).(toServer := input), ms);
            var all := EncodeAll(Conversation(v, id, 0, input));
            && s.toClient <= all
            && (s.peer.LoopHead? && s.toServer == [] && !Decode(s.serverBuffer).Complete? ==> s.toClient == all)
            && (s.peer.Gone? && NoDie(ms) ==> s.toClient == all)
  {
    var s0 := Fresh(id).(toServer := input);
    StartTells(v, id, input);
    TellsPlay(v, s0, id, input, ms);
    if NoDie(ms) {
      EndedWholePlay(v, s0, id, input, ms);
    }
    hide Tells, Play;
    var s := Play(v, s0, ms);
    TellsPrefix(v, s, id, input);
    if s.peer.LoopHead? && s.toServer == [] && !Decode(s.serverBuffer).Complete? {
      TellsWhole(v, s, id, input);
    }
  }

  lemma StartTells(v: Service, id: nat, input: Bytes)
    ensures Tells(v, Fresh(id).(toServer := input), id, input)
  {
    var s := Fresh(id).(toServer := input);
    assert AllReplies(s.served) == [] && EncodeAll([]) == [];
    hide Conversation, AllReplies, EncodeAll;
    assert s.serverBuffer + s.toServer == input;
    assert [] + ToCome(v, s) == Conversation(v, id, 0, input);
    assert s.toClient + s.serverOut == [];
  }

  lemma TellsPrefix(v: Service, s: Conn, id: nat, input: Bytes)
    requires Tells(v, s, id, input)
    ensures s.toClient <= EncodeAll(Conversation(v, id, 0, input))
  {
    var said, all := AllReplies(s.served), Conversation(v, id, 0, input);
    hide Conversation;
    if !s.peer.Gone? {
      PrefixOf(s.toClient, s.serverOut, EncodeAll(said));
      assert said <= all;
    }
    EncodePrefix(said, all);
  }

  lemma EncodePrefix(fs: seq<Frame>, gs: seq<Frame>)
    requires AllWritable(gs) && fs <= gs
    ensures AllWritable(fs) && EncodeAll(fs) <= EncodeAll(gs)
  {
    var rest := gs[|fs|..];
    assert gs == fs + rest;
    assert AllWritable(rest);
    forall i | 0 <= i < |fs| ensures Writable(fs[i]) {
      assert fs[i] == gs[i];
    }
    EncodeAllAppend(fs, rest);
  }

  lemma TellsWhole(v: Service, s: Conn, id: nat, input: Bytes)
    requires Tells(v, s, id, input)
    requires s.peer.LoopHead? && s.toServer == [] && !Decode(s.serverBuffer).Complete?
    ensures s.toClient == EncodeAll(Conversation(v, id, 0, input))
  {
    assert s.serverBuffer + s.toServer == s.serverBuffer;
    SaidAll(v, s, id, input);
  }
}
