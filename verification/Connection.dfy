/** One connection: the byte queues between a client and its server task, and the server's steps.
    The server runs concurrently with the client; every read, flush and return to its loop head is a
    step of its own. */
module Connection {
  import opened Wrappers
  import opened Wire
  import opened Protocol

  /** Where the server task stands. `Replying` lasts from taking up a frame until the return to the
      loop head, including the work after the last reply is flushed. */
  datatype Peer =
    | AwaitHandshake
    | LoopHead
    | Replying(next: Next)
    | Gone

  datatype Exchange = Exchange(request: Frame, replies: seq<Frame>)

  /** `toServer` and `toClient` are the bytes in the socket, `serverBuffer` what the server's reader has
      pulled, `serverOut` what the server has still to flush, and `served` the frames it has taken up. */
  datatype Conn = Conn(
    id: nat,
    toServer: Bytes,
    serverBuffer: Bytes,
    serverOut: Bytes,
    toClient: Bytes,
    peer: Peer,
    served: seq<Exchange>)

  /** `Die` stands for every way the server ends a connection early: its read timing out, a transport
      error, an unreadable frame, the connection limit, or a crash. */
  datatype Move = Pull(n: nat) | Take | Flush(n: nat) | Finish | Die

  function Fresh(id: nat): Conn {
    Conn(id, [], [], [], [], AwaitHandshake, [])
  }

  function Dead(s: Conn): Conn {
    s.(peer := Gone, serverOut := [])
  }

  /** Takes up the next frame, once all its bytes are there. */
  function TakeFrame(v: Service, s: Conn): Conn {
    match Decode(s.serverBuffer)
    case Incomplete => s
    case BadLength => Dead(s)
    case Complete(f, rest) =>
      var r := Answer(v, s.id, |s.served|, f);
      s.(serverBuffer := rest,
         serverOut := EncodeAll(r.replies),
         peer := Replying(r.next),
         served := s.served + [Exchange(f, r.replies)])
  }

  /** A server step; one that is not possible leaves the connection as it is. */
  function Step(v: Service, s: Conn, m: Move): Conn {
    match m
    case Pull(n) =>
      if s.peer.Gone? || n > |s.toServer| then s
      else s.(serverBuffer := s.serverBuffer + s.toServer[..n], toServer := s.toServer[n..])
    case Take => if s.peer.AwaitHandshake? || s.peer.LoopHead? then TakeFrame(v, s) else s
    case Flush(n) =>
      if !s.peer.Replying? || n > |s.serverOut| then s
      else s.(toClient := s.toClient + s.serverOut[..n], serverOut := s.serverOut[n..])
    case Finish =>
      if s.peer.Replying? && s.serverOut == [] then
        s.(peer := if s.peer.next.Continue? then LoopHead else Gone)
      else s
    case Die => Dead(s)
  }

  function Play(v: Service, s: Conn, ms: seq<Move>): Conn
    decreases |ms|
  {
    if ms == [] then s else Play(v, Step(v, s, ms[0]), ms[1..])
  }

  // ---------- what holds between and during calls ----------

  /** No byte is in flight either way, and the server is gone, at its loop head, or past its last flush
      on the way back there. */
  predicate Quiet(s: Conn) {
    && s.served != []
    && s.toServer == s.serverBuffer == s.serverOut == s.toClient == []
    && !s.peer.AwaitHandshake?
    && (s.peer.Replying? ==> s.peer.next.Continue?)
  }

  /** Ready to be sent a frame: quiet, or brand new. */
  predicate Ready(s: Conn) {
    Quiet(s) || s == Fresh(s.id) || s == Dead(Fresh(s.id))
  }

  /** The frame `f`, the next after those in `log`, is on its way: what the client has still to send
      (`unsent`) completes what is in the socket and in the server's buffer, and nothing comes back. */
  predicate Asked(s: Conn, log: seq<Exchange>, f: Frame, unsent: Bytes) {
    && Writable(f) && s.served == log
    && s.serverBuffer + s.toServer + unsent == Encode(f)
    && s.serverOut == s.toClient == []
    && (s.peer.AwaitHandshake? ==> log == [])
    && (s.peer.Replying? ==> s.peer.next.Continue?)
  }

  /** The server has taken up exactly `f`; of its replies the client has read `k`, and the rest are,
      in order, in the client's buffer, in the socket, and still to be flushed. If the server is gone
      some of them may be missing at the end. */
  predicate Answering(v: Service, s: Conn, log: seq<Exchange>, f: Frame, k: nat, inBuffer: Bytes) {
    var r := Answer(v, s.id, |log|, f);
    && s.served == log + [Exchange(f, r.replies)]
    && s.serverBuffer == s.toServer == []
    && k <= |r.replies|
    && Owed(s, r, k, inBuffer)
  }

  predicate Owed(s: Conn, r: Verdict, k: nat, inBuffer: Bytes)
    requires AllWritable(r.replies) && k <= |r.replies|
  {
    match s.peer
    case AwaitHandshake => false
    case LoopHead =>
      r.next.Continue? && s.serverOut == [] && inBuffer + s.toClient == EncodeAll(r.replies[k..])
    case Replying(next) =>
      next == r.next && inBuffer + s.toClient + s.serverOut == EncodeAll(r.replies[k..])
    case Gone =>
      s.serverOut == [] && inBuffer + s.toClient <= EncodeAll(r.replies[k..])
  }

  predicate Underway(v: Service, s: Conn, log: seq<Exchange>, f: Frame, unsent: Bytes, k: nat, inBuffer: Bytes) {
    || (Asked(s, log, f, unsent) && k == 0 && inBuffer == [])
    || (unsent == [] && Answering(v, s, log, f, k, inBuffer))
  }

  lemma AnsweringUnderway(v: Service, s: Conn, log: seq<Exchange>, f: Frame, k: nat, inBuffer: Bytes)
    requires Answering(v, s, log, f, k, inBuffer)
    ensures Underway(v, s, log, f, [], k, inBuffer)
  {
  }

  // ---------- every server step keeps it ----------

  lemma NothingToTake(v: Service, s: Conn)
    requires s.serverBuffer == []
    ensures TakeFrame(v, s) == s
  {
    assert Decode(s.serverBuffer) == Incomplete;
  }

  lemma QuietStep(v: Service, s: Conn, m: Move)
    requires Quiet(s)
    ensures Quiet(Step(v, s, m)) && Step(v, s, m).served == s.served && Step(v, s, m).id == s.id
  {
    hide TakeFrame;
    NothingToTake(v, s);
  }

  /** A kept connection stays quiet while nobody uses it, and the server takes up nothing on its own. */
  lemma {:induction false} QuietPlay(v: Service, s: Conn, ms: seq<Move>)
    requires Quiet(s)
    ensures Quiet(Play(v, s, ms)) && Play(v, s, ms).served == s.served && Play(v, s, ms).id == s.id
    decreases |ms|
  {
    if ms != [] {
      QuietStep(v, s, ms[0]);
      QuietPlay(v, Step(v, s, ms[0]), ms[1..]);
    }
  }

  lemma AskedTake(v: Service, s: Conn, log: seq<Exchange>, f: Frame, unsent: Bytes)
    requires Asked(s, log, f, unsent)
    requires s.peer.AwaitHandshake? || s.peer.LoopHead?
    ensures Underway(v, TakeFrame(v, s), log, f, unsent, 0, [])
  {
    if |s.serverBuffer| < |Encode(f)| {
      DecodeProperPrefix(f, s.serverBuffer);
    } else {
      assert |s.serverBuffer + s.toServer + unsent| == |Encode(f)|;
      assert s.toServer == [] && unsent == [];
      assert s.serverBuffer == Encode(f) + [];
      DecodeEncode(f, []);
      TakenUp(v, s, log, f);
    }
  }

  lemma TakenUp(v: Service, s: Conn, log: seq<Exchange>, f: Frame)
    requires s.served == log && s.toServer == [] && s.toClient == []
    requires Decode(s.serverBuffer) == Complete(f, [])
    ensures Answering(v, TakeFrame(v, s), log, f, 0, [])
  {
    var r := Answer(v, s.id, |log|, f);
    assert r.replies[0..] == r.replies;
    assert [] + s.toClient + EncodeAll(r.replies) == EncodeAll(r.replies);
  }

  lemma AskedPull(s: Conn, log: seq<Exchange>, f: Frame, unsent: Bytes, n: nat)
    requires Asked(s, log, f, unsent) && n <= |s.toServer|
    ensures Asked(s.(serverBuffer := s.serverBuffer + s.toServer[..n], toServer := s.toServer[n..]), log, f, unsent)
  {
    assert s.toServer[..n] + s.toServer[n..] == s.toServer;
    assert s.serverBuffer + s.toServer[..n] + s.toServer[n..] == s.serverBuffer + s.toServer;
  }

  lemma AskedStep(v: Service, s: Conn, log: seq<Exchange>, f: Frame, unsent: Bytes, m: Move)
    requires Asked(s, log, f, unsent)
    ensures Underway(v, Step(v, s, m), log, f, unsent, 0, [])
  {
    match m
    case Pull(n) =>
      if n <= |s.toServer| {
        AskedPull(s, log, f, unsent, n);
      }
    case Take =>
      if s.peer.AwaitHandshake? || s.peer.LoopHead? {
        AskedTake(v, s, log, f, unsent);
      }
    case _ =>
  }

  lemma OwedFlush(s: Conn, r: Verdict, k: nat, inBuffer: Bytes, n: nat)
    requires AllWritable(r.replies) && k <= |r.replies|
    requires s.peer.Replying? && n <= |s.serverOut| && Owed(s, r, k, inBuffer)
    ensures Owed(s.(toClient := s.toClient + s.serverOut[..n], serverOut := s.serverOut[n..]), r, k, inBuffer)
  {
    assert s.serverOut[..n] + s.serverOut[n..] == s.serverOut;
    assert inBuffer + (s.toClient + s.serverOut[..n]) + s.serverOut[n..] == inBuffer + s.toClient + s.serverOut;
  }

  lemma OwedDie(s: Conn, r: Verdict, k: nat, inBuffer: Bytes)
    requires AllWritable(r.replies) && k <= |r.replies| && Owed(s, r, k, inBuffer)
    ensures Owed(Dead(s), r, k, inBuffer)
  {
  }

  lemma AnsweringStep(v: Service, s: Conn, log: seq<Exchange>, f: Frame, k: nat, inBuffer: Bytes, m: Move)
    requires Answering(v, s, log, f, k, inBuffer)
    ensures Answering(v, Step(v, s, m), log, f, k, inBuffer)
  {
    hide TakeFrame, Answer;
    var r := Answer(v, s.id, |log|, f);
    NothingToTake(v, s);
    match m
    case Pull(n) =>
      assert Step(v, s, m) == s;
    case Take =>
    case Flush(n) =>
      if s.peer.Replying? && n <= |s.serverOut| {
        OwedFlush(s, r, k, inBuffer, n);
      }
    case Finish =>
    case Die => OwedDie(s, r, k, inBuffer);
  }

  /** Whatever the server does, a call under way stays under way: nobody else's bytes mix in. */
  lemma {:induction false} UnderwayPlay(v: Service, s: Conn, log: seq<Exchange>, f: Frame, unsent: Bytes, k: nat, inBuffer: Bytes, ms: seq<Move>)
    requires Underway(v, s, log, f, unsent, k, inBuffer)
    ensures Underway(v, Play(v, s, ms), log, f, unsent, k, inBuffer)
    ensures Play(v, s, ms).id == s.id
    decreases |ms|
  {
    if ms != [] {
      var s' := Step(v, s, ms[0]);
      if Asked(s, log, f, unsent) && k == 0 && inBuffer == [] {
        AskedStep(v, s, log, f, unsent, ms[0]);
      } else {
        AnsweringStep(v, s, log, f, k, inBuffer, ms[0]);
      }
      hide Underway, Step;
      IdFixed(v, s, ms[0]);
      UnderwayPlay(v, s', log, f, unsent, k, inBuffer, ms[1..]);
    }
  }

  lemma IdFixed(v: Service, s: Conn, m: Move)
    ensures Step(v, s, m).id == s.id
  {
  }

  // ---------- what the client does to it ----------

  /** A frame about to be written on a ready connection. */
  lemma StartAsking(v: Service, s: Conn, f: Frame)
    requires Ready(s) && Writable(f)
    ensures Underway(v, s, s.served, f, Encode(f), 0, [])
  {
    assert s.serverBuffer + s.toServer + Encode(f) == Encode(f);
  }

  /** Some more bytes of the frame reach the socket. */
  lemma SendSome(v: Service, s: Conn, log: seq<Exchange>, f: Frame, unsent: Bytes, n: nat)
    requires Underway(v, s, log, f, unsent, 0, []) && 0 < n <= |unsent|
    ensures Underway(v, s.(toServer := s.toServer + unsent[..n]), log, f, unsent[n..], 0, [])
  {
    assert unsent[..n] + unsent[n..] == unsent;
    assert s.serverBuffer + (s.toServer + unsent[..n]) + unsent[n..] == s.serverBuffer + s.toServer + unsent;
  }

  /** The client's reader pulls bytes out of the socket. */
  lemma ReceiveSome(v: Service, s: Conn, log: seq<Exchange>, f: Frame, k: nat, inBuffer: Bytes, n: nat)
    requires Underway(v, s, log, f, [], k, inBuffer) && 0 < n <= |s.toClient|
    ensures Underway(v, s.(toClient := s.toClient[n..]), log, f, [], k, inBuffer + s.toClient[..n])
  {
    assert s.toClient[..n] + s.toClient[n..] == s.toClient;
    assert inBuffer + s.toClient[..n] + s.toClient[n..] == inBuffer + s.toClient;
  }

  lemma OwedPrefix(s: Conn, r: Verdict, k: nat, inBuffer: Bytes)
    requires AllWritable(r.replies) && k <= |r.replies| && Owed(s, r, k, inBuffer)
    ensures inBuffer <= EncodeAll(r.replies[k..])
  {
    var rest := EncodeAll(r.replies[k..]);
    match s.peer
    case LoopHead =>
      assert rest[..|inBuffer|] == inBuffer;
    case Replying(_) =>
      assert inBuffer + s.toClient + s.serverOut == inBuffer + (s.toClient + s.serverOut);
      assert rest[..|inBuffer|] == inBuffer;
    case Gone =>
      assert (inBuffer + s.toClient)[..|inBuffer|] == inBuffer;
      assert rest[..|inBuffer + s.toClient|] == inBuffer + s.toClient;
  }

  /** Dropping the first `e` bytes owed on both sides. */
  lemma OwedRest(s: Conn, r: Verdict, k: nat, e: Bytes, rest: Bytes)
    requires AllWritable(r.replies) && k < |r.replies|
    requires e == Encode(r.replies[k]) && Owed(s, r, k, e + rest)
    ensures Owed(s, r, k + 1, rest)
  {
    var all, tail := EncodeAll(r.replies[k..]), EncodeAll(r.replies[k + 1..]);
    assert r.replies[k..][1..] == r.replies[k + 1..];
    assert all == e + tail;
    match s.peer
    case LoopHead =>
      assert (e + rest + s.toClient)[|e|..] == rest + s.toClient;
      assert (e + tail)[|e|..] == tail;
    case Replying(_) =>
      assert (e + rest + s.toClient + s.serverOut)[|e|..] == rest + s.toClient + s.serverOut;
      assert (e + tail)[|e|..] == tail;
    case Gone =>
      assert (e + rest + s.toClient)[|e|..] == rest + s.toClient;
      assert (e + tail)[|e|..] == tail;
      assert (e + tail)[..|e + rest + s.toClient|] == e + rest + s.toClient;
      assert tail[..|rest + s.toClient|] == rest + s.toClient;
  }

  /** A frame in the client's buffer is the next reply to this very request; the buffer never holds
      anything that does not read as a frame. */
  lemma ReadNext(v: Service, s: Conn, log: seq<Exchange>, f: Frame, k: nat, inBuffer: Bytes)
    requires Underway(v, s, log, f, [], k, inBuffer)
    ensures !Decode(inBuffer).BadLength?
    ensures Decode(inBuffer).Complete? ==>
              var r := Answer(v, s.id, |log|, f);
              && k < |r.replies| && Decode(inBuffer).frame == r.replies[k]
              && Answering(v, s, log, f, k + 1, Decode(inBuffer).rest)
  {
    if inBuffer == [] {
      assert Decode(inBuffer) == Incomplete;
    } else {
      var r := Answer(v, s.id, |log|, f);
      OwedPrefix(s, r, k, inBuffer);
      DecodePrefixOfMany(r.replies[k..], inBuffer);
      if Decode(inBuffer).Complete? {
        OwedRest(s, r, k, Encode(r.replies[k]), Decode(inBuffer).rest);
      }
    }
  }

  /** Once every reply is read and the server means to go on, the connection is quiet again and the
      buffer about to be dropped is empty. */
  lemma AllRead(v: Service, s: Conn, log: seq<Exchange>, f: Frame, k: nat, inBuffer: Bytes)
    requires Answering(v, s, log, f, k, inBuffer)
    requires k == |Answer(v, s.id, |log|, f).replies| && Answer(v, s.id, |log|, f).next.Continue?
    ensures inBuffer == [] && Quiet(s)
  {
    var r := Answer(v, s.id, |log|, f);
    assert r.replies[k..] == [];
    assert EncodeAll(r.replies[k..]) == [];
    if s.peer.Replying? {
      assert |inBuffer + s.toClient + s.serverOut| == 0;
    } else {
      assert |inBuffer + s.toClient| == 0;
    }
  }
}
