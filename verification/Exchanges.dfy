/** One exchange on a connection as a function of everything that is not up to the client: how many bytes
    the transport moves at a time, and what the server does in between. */
module Exchanges {
  import opened Wrappers
  import opened Wire
  import opened Protocol
  import opened Connection

  function Clamp(n: nat, hi: nat): (r: nat)
    requires hi > 0
    ensures 0 < r <= hi
  {
    if n == 0 then 1 else if n > hi then hi else n
  }

  /** The transport moves about `bytes` bytes, then the server makes some moves. */
  datatype Turn = Turn(bytes: nat, moves: seq<Move>)

  /** The turns for which writing the frame goes well, and those for which each read has patience. */
  datatype Weather = Weather(writes: seq<Turn>, waits: nat -> seq<Turn>)

  datatype Sent = Sent(result: Result<()>, conn: Conn)

  datatype Got = Got(result: Result<Frame>, conn: Conn, buffer: Bytes)

  function Pushed(s: Conn, bs: Bytes): Conn {
    s.(toServer := s.toServer + bs)
  }

  /** Writes what is `unsent`; if the turns run out first the transport has failed. */
  function Writing(v: Service, s: Conn, unsent: Bytes, turns: seq<Turn>): (r: Sent)
    ensures r.result.Err? ==> r.result.error == ConnectionFailed
    decreases |turns|
  {
    if unsent == [] then Sent(Ok(()), s)
    else if turns == [] then Sent(Err(ConnectionFailed), s)
    else
      var n := Clamp(turns[0].bytes, |unsent|);
      Writing(v, Play(v, Pushed(s, unsent[..n]), turns[0].moves), unsent[n..], turns[1..])
  }

  function WritingFrame(v: Service, s: Conn, f: Frame, turns: seq<Turn>): (r: Sent)
    ensures r.result.Err? ==> r.result.error == if Writable(f) then ConnectionFailed else InvalidMessage
  {
    if Writable(f) then Writing(v, s, Encode(f), turns) else Sent(Err(InvalidMessage), s)
  }

  /** How many bytes the reader pulls in a turn. */
  function Pulls(s: Conn, t: Turn): (n: nat)
    ensures n <= |s.toClient|
  {
    if s.toClient == [] then 0 else Clamp(t.bytes, |s.toClient|)
  }

  function Pulled(s: Conn, n: nat): Conn
    requires n <= |s.toClient|
  {
    s.(toClient := s.toClient[n..])
  }

  /** Reads one frame into a buffer that holds `buffer` already, for as many turns as patience lasts. */
  function Awaiting(v: Service, s: Conn, buffer: Bytes, turns: seq<Turn>): (r: Got)
    ensures r.result.Err? ==> r.result.error in {InvalidMessage, Timeout, ConnectionFailed}
    decreases |turns|
  {
    match Decode(buffer)
    case Complete(f, rest) => Got(Ok(f), s, rest)
    case BadLength => Got(Err(InvalidMessage), s, buffer)
    case Incomplete =>
      if turns == [] then Got(Err(Timeout), s, buffer)
      else if s.toClient == [] && s.peer.Gone? then Got(Err(ConnectionFailed), s, buffer)
      else
        var n := Pulls(s, turns[0]);
        Awaiting(v, Play(v, Pulled(s, n), turns[0].moves), buffer + s.toClient[..n], turns[1..])
  }

  /** One frame out, one frame back. */
  function RoundTrip(v: Service, s: Conn, f: Frame, w: Weather): (r: Got)
    ensures r.result.Err? ==> r.result.error in {InvalidMessage, Timeout, ConnectionFailed}
  {
    var sent := WritingFrame(v, s, f, w.writes);
    if sent.result.Err? then Got(Err(sent.result.error), sent.conn, [])
    else Awaiting(v, sent.conn, [], w.waits(0))
  }

  // ---------- whatever happens ----------

  /** Whatever the transport and the server do, a frame being written stays the only thing under way. */
  lemma {:induction false} WritingUnderway(v: Service, s: Conn, log: seq<Exchange>, f: Frame, unsent: Bytes, turns: seq<Turn>)
    requires Underway(v, s, log, f, unsent, 0, [])
    ensures var r := Writing(v, s, unsent, turns);
            r.conn.id == s.id && (r.result.Ok? ==> Underway(v, r.conn, log, f, [], 0, []))
    decreases |turns|
  {
    hide Underway;
    if unsent != [] && turns != [] {
      var n := Clamp(turns[0].bytes, |unsent|);
      SendSome(v, s, log, f, unsent, n);
      UnderwayPlay(v, Pushed(s, unsent[..n]), log, f, unsent[n..], 0, [], turns[0].moves);
      WritingUnderway(v, Play(v, Pushed(s, unsent[..n]), turns[0].moves), log, f, unsent[n..], turns[1..]);
    }
  }

  /** A frame that is read is the next reply to this very request, and every byte left in the buffer is
      accounted for. A reader gives up only with no whole frame in its buffer. */
  lemma {:induction false} ReadingUnderway(v: Service, s: Conn, log: seq<Exchange>, f: Frame, k: nat, buffer: Bytes, turns: seq<Turn>)
    requires Underway(v, s, log, f, [], k, buffer)
    ensures var r := Awaiting(v, s, buffer, turns);
            && r.conn.id == s.id
            && (r.result.Ok? ==>
                  && k < |Answer(v, s.id, |log|, f).replies|
                  && r.result.value == Answer(v, s.id, |log|, f).replies[k]
                  && Answering(v, r.conn, log, f, k + 1, r.buffer))
            && (r.result.Err? ==> Decode(r.buffer).Incomplete? && r.result.error != InvalidMessage)
            && (r.result == Err(ConnectionFailed) ==> r.conn.peer.Gone? && r.conn.toClient == [])
    decreases |turns|
  {
    ReadNext(v, s, log, f, k, buffer);
    hide Underway, Answering;
    if Decode(buffer).Incomplete? && turns != [] && !(s.toClient == [] && s.peer.Gone?) {
      var n := Pulls(s, turns[0]);
      PullSome(v, s, log, f, k, buffer, n);
      UnderwayPlay(v, Pulled(s, n), log, f, [], k, buffer + s.toClient[..n], turns[0].moves);
      ReadingUnderway(v, Play(v, Pulled(s, n), turns[0].moves), log, f, k, buffer + s.toClient[..n], turns[1..]);
    }
  }

  lemma PullSome(v: Service, s: Conn, log: seq<Exchange>, f: Frame, k: nat, buffer: Bytes, n: nat)
    requires Underway(v, s, log, f, [], k, buffer) && n <= |s.toClient|
    ensures Underway(v, Pulled(s, n), log, f, [], k, buffer + s.toClient[..n])
  {
    if n > 0 {
      ReceiveSome(v, s, log, f, k, buffer, n);
    } else {
      assert Pulled(s, 0) == s && buffer + s.toClient[..0] == buffer;
    }
  }

  /** What one exchange on a ready connection can yield: the first reply to the frame sent, and nothing else. */
  lemma RoundTripUnderway(v: Service, s: Conn, f: Frame, w: Weather)
    requires Ready(s)
    ensures var r := RoundTrip(v, s, f, w);
            var a := Answer(v, s.id, |s.served|, f);
            && r.conn.id == s.id
            && (r.result.Ok? ==>
                  && a.replies != [] && r.result.value == a.replies[0]
                  && Answering(v, r.conn, s.served, f, 1, r.buffer))
            && (r.result == Err(InvalidMessage) <==> !Writable(f))
  {
    if Writable(f) {
      StartAsking(v, s, f);
      WritingUnderway(v, s, s.served, f, Encode(f), w.writes);
      var sent := Writing(v, s, Encode(f), w.writes);
      if sent.result.Ok? {
        hide Underway, Answering, Ready;
        ReadingUnderway(v, sent.conn, s.served, f, 0, [], w.waits(0));
      }
    }
  }

  // ---------- when all goes well ----------

  /** What a server at work on one frame needs to do to answer it. */
  function Diligence(v: Service, s: Conn, f: Frame): seq<Move> {
    var out := EncodeAll(Answer(v, s.id, |s.served|, f).replies);
    [Finish, Pull(|s.toServer|), Take, Flush(|out|)]
  }

  lemma PlayFour(v: Service, s: Conn, a: Move, b: Move, c: Move, d: Move)
    ensures Play(v, s, [a, b, c, d]) == Step(v, Step(v, Step(v, Step(v, s, a), b), c), d)
  {
    assert [a, b, c, d][1..] == [b, c, d] && [b, c, d][1..] == [c, d] && [c, d][1..] == [d] && [d][1..] == [];
    hide Step;
    var s1 := Step(v, s, a);
    var s2 := Step(v, s1, b);
    var s3 := Step(v, s2, c);
    assert Play(v, s3, [d]) == Play(v, Step(v, s3, d), []);
    assert Play(v, s2, [c, d]) == Play(v, s3, [d]);
    assert Play(v, s1, [b, c, d]) == Play(v, s2, [c, d]);
  }

  lemma ServerReady(v: Service, s: Conn, log: seq<Exchange>, f: Frame) returns (s2: Conn)
    requires Asked(s, log, f, []) && !s.peer.Gone?
    ensures s2 == Step(v, Step(v, s, Finish), Pull(|s.toServer|))
    ensures s2.id == s.id && s2.served == log && s2.serverBuffer == Encode(f)
    ensures s2.toServer == s2.toClient == s2.serverOut == [] && (s2.peer.LoopHead? || s2.peer.AwaitHandshake?)
  {
    hide TakeFrame, Encode;
    var s1 := Step(v, s, Finish);
    assert s1 == s.(peer := s1.peer);
    s2 := Step(v, s1, Pull(|s.toServer|));
    assert s.toServer[..|s.toServer|] == s.toServer && s.toServer[|s.toServer|..] == [];
    assert s.serverBuffer + s.toServer + [] == s.serverBuffer + s.toServer;
  }

  lemma ServerTakes(v: Service, s: Conn, log: seq<Exchange>, f: Frame)
    requires Writable(f) && s.served == log && s.serverBuffer == Encode(f) && s.toClient == []
    requires s.peer.LoopHead? || s.peer.AwaitHandshake?
    ensures var s3 := Step(v, s, Take);
            s3.serverOut == EncodeAll(Answer(v, s.id, |log|, f).replies) && s3.toClient == [] && s3.peer.Replying?
  {
    DecodeEncode(f, []);
    assert Encode(f) + [] == Encode(f);
    hide EncodeAll, Answer, Encode, Decode;
  }

  /** A server that is not gone and has been sent a whole frame can answer it. */
  lemma ServerCanAnswer(v: Service, s: Conn, log: seq<Exchange>, f: Frame)
    requires Asked(s, log, f, []) && !s.peer.Gone?
    ensures Play(v, s, Diligence(v, s, f)).toClient == EncodeAll(Answer(v, s.id, |log|, f).replies)
  {
    var out := EncodeAll(Answer(v, s.id, |log|, f).replies);
    PlayFour(v, s, Finish, Pull(|s.toServer|), Take, Flush(|out|));
    var s2 := ServerReady(v, s, log, f);
    ServerTakes(v, s2, log, f);
    var s3 := Step(v, s2, Take);
    hide EncodeAll, Answer, TakeFrame, Asked;
    assert out[..|out|] == out;
    assert [] + out == out;
  }

  /** One turn is enough to write a frame, and two to read a reply to it: in the first the server answers,
      in the second all it sent is pulled. */
  function FairWeather(v: Service, s: Conn, f: Frame): Weather
    requires Writable(f)
  {
    var e := Encode(f);
    var asked := Pushed(s, e);
    var out := EncodeAll(Answer(v, s.id, |s.served|, f).replies);
    Weather([Turn(|e|, [])], _ => [Turn(0, Diligence(v, asked, f)), Turn(|out|, [])])
  }

  lemma WritingAtOnce(v: Service, s: Conn, e: Bytes)
    requires e != []
    ensures Writing(v, s, e, [Turn(|e|, [])]) == Sent(Ok(()), Pushed(s, e))
  {
    var t := Turn(|e|, []);
    assert [t][1..] == [] && e[..|e|] == e && e[|e|..] == [];
    assert Play(v, Pushed(s, e), []) == Pushed(s, e);
    assert Writing(v, Pushed(s, e), [], []) == Sent(Ok(()), Pushed(s, e));
  }

  lemma ReadingAtOnce(v: Service, s: Conn, moves: seq<Move>, out: Bytes)
    requires s.toClient == [] && !s.peer.Gone?
    requires Play(v, s, moves).toClient == out && Decode(out).Complete?
    ensures var r := Awaiting(v, s, [], [Turn(0, moves), Turn(|out|, [])]);
            r.result == Ok(Decode(out).frame) && r.buffer == Decode(out).rest
  {
    var t, u := Turn(0, moves), Turn(|out|, []);
    assert [t, u][1..] == [u] && [u][1..] == [];
    var s1 := Play(v, s, moves);
    assert Pulled(s, 0) == s && [] + s.toClient[..0] == [];
    assert Awaiting(v, s, [], [t, u]) == Awaiting(v, s1, [], [u]);
    assert out != [] && s1.toClient[..|out|] == out && [] + out == out;
    assert Pulls(s1, u) == |out|;
    assert Awaiting(v, s1, [], [u]) == Awaiting(v, Play(v, Pulled(s1, |out|), []), out, []);
  }

  /** A frame that can be written, sent to a server that is there and has something to reply, gets its reply:
      in fair weather the exchange succeeds. */
  lemma FairWeatherSucceeds(v: Service, s: Conn, f: Frame)
    requires Ready(s) && !s.peer.Gone? && Writable(f)
    requires Answer(v, s.id, |s.served|, f).replies != []
    ensures var w, replies := FairWeather(v, s, f), Answer(v, s.id, |s.served|, f).replies;
            && WritingFrame(v, s, f, w.writes).result.Ok?
            && RoundTrip(v, s, f, w).result == Ok(replies[0])
            && RoundTrip(v, s, f, w).buffer == EncodeAll(replies[1..])
  {
    var e, asked := Encode(f), Pushed(s, Encode(f));
    var replies := Answer(v, s.id, |s.served|, f).replies;
    WritingAtOnce(v, s, e);
    assert asked.serverBuffer + asked.toServer + [] == Encode(f);
    ServerCanAnswer(v, asked, s.served, f);
    assert EncodeAll(replies) == Encode(replies[0]) + EncodeAll(replies[1..]);
    DecodeEncode(replies[0], EncodeAll(replies[1..]));
    hide Play, Writing, Awaiting, EncodeAll, Encode, Decode, Diligence, Answer;
    ReadingAtOnce(v, asked, Diligence(v, asked, f), EncodeAll(replies));
  }

  // ---------- when the server is gone ----------

  lemma {:induction false} GonePlay(v: Service, s: Conn, ms: seq<Move>)
    requires s.peer.Gone?
    ensures Play(v, s, ms).peer.Gone? && Play(v, s, ms).served == s.served
    decreases |ms|
  {
    if ms != [] {
      GonePlay(v, Step(v, s, ms[0]), ms[1..]);
    }
  }

  lemma {:induction false} GoneWriting(v: Service, s: Conn, unsent: Bytes, turns: seq<Turn>)
    requires s.peer.Gone?
    ensures Writing(v, s, unsent, turns).conn.peer.Gone? && Writing(v, s, unsent, turns).conn.served == s.served
    decreases |turns|
  {
    if unsent != [] && turns != [] {
      var n := Clamp(turns[0].bytes, |unsent|);
      GonePlay(v, Pushed(s, unsent[..n]), turns[0].moves);
      GoneWriting(v, Play(v, Pushed(s, unsent[..n]), turns[0].moves), unsent[n..], turns[1..]);
    }
  }

  lemma {:induction false} GoneReading(v: Service, s: Conn, buffer: Bytes, turns: seq<Turn>)
    requires s.peer.Gone?
    ensures Awaiting(v, s, buffer, turns).conn.served == s.served
    decreases |turns|
  {
    if Decode(buffer).Incomplete? && turns != [] && s.toClient != [] {
      var n := Pulls(s, turns[0]);
      GonePlay(v, Pulled(s, n), turns[0].moves);
      GoneReading(v, Play(v, Pulled(s, n), turns[0].moves), buffer + s.toClient[..n], turns[1..]);
    }
  }

  /** On a connection whose server is gone no exchange ever succeeds. */
  lemma GoneNeverAnswers(v: Service, s: Conn, f: Frame, w: Weather)
    requires Ready(s) && s.peer.Gone?
    ensures RoundTrip(v, s, f, w).result.Err?
  {
    RoundTripUnderway(v, s, f, w);
    if Writable(f) {
      GoneWriting(v, s, Encode(f), w.writes);
      var sent := Writing(v, s, Encode(f), w.writes);
      GoneReading(v, sent.conn, [], w.waits(0));
    }
  }

  /** An exchange can succeed, in some weather, exactly if the frame can be written, the server is there, and
      it has a reply; and then it yields that reply in every weather in which it succeeds. */
  lemma CanSucceedIff(v: Service, s: Conn, f: Frame)
    requires Ready(s)
    ensures (exists w :: RoundTrip(v, s, f, w).result.Ok?) <==>
            Writable(f) && !s.peer.Gone? && Answer(v, s.id, |s.served|, f).replies != []
    ensures forall w :: RoundTrip(v, s, f, w).result.Ok? ==>
                          && Answer(v, s.id, |s.served|, f).replies != []
                          && RoundTrip(v, s, f, w).result.value == Answer(v, s.id, |s.served|, f).replies[0]
  {
    forall w | RoundTrip(v, s, f, w).result.Ok?
      ensures Writable(f) && !s.peer.Gone? && Answer(v, s.id, |s.served|, f).replies != []
      ensures RoundTrip(v, s, f, w).result.value == Answer(v, s.id, |s.served|, f).replies[0]
    {
      RoundTripUnderway(v, s, f, w);
      if s.peer.Gone? {
        GoneNeverAnswers(v, s, f, w);
      }
    }
    if Writable(f) && !s.peer.Gone? && Answer(v, s.id, |s.served|, f).replies != [] {
      FairWeatherSucceeds(v, s, f);
    }
  }
}
