/** What a streaming call makes of the frames it reads: the decision on each frame, and its meaning over
    any list of frames, whoever sent them. */
module Streaming {
  import opened Wrappers
  import opened Wire
  import opened Protocol

  /** "error", the prefix that marks a failed stream. */
  const ERROR_PREFIX: Text := [0x65, 0x72, 0x72, 0x6F, 0x72]

  datatype Progress = Reading(messages: seq<StreamMessage>) | Ended(outcome: Result<seq<StreamMessage>>)

  /** One turn of the reading loop. */
  function Absorb(c: Codec, messages: seq<StreamMessage>, f: Frame): (p: Progress)
    ensures p.Ended? ==> p.outcome != Err(Error.Panic)
  {
    if f.kind == MSG_STREAM_START then Reading(messages)
    else if f.kind == MSG_STREAM_CHUNK then
      (match c.decodeChunk(f.payload)
       case None => Ended(Err(Error.Encoding))
       case Some(message) => Reading(messages + [message]))
    else if f.kind == MSG_STREAM_END then
      (match c.decodeStreamEnd(f.payload)
       case None => Ended(Err(Error.Encoding))
       case Some(status) => Ended(if ERROR_PREFIX <= status then Err(Error.Protocol) else Ok(messages)))
    else if f.kind == MSG_ERROR then
      Ended(Err(if c.decodeFault(f.payload).Some? then Error.Protocol else Error.Encoding))
    else Ended(Err(Error.Protocol))
  }

  function Collect(c: Codec, messages: seq<StreamMessage>, fs: seq<Frame>): Progress
    decreases |fs|
  {
    if fs == [] then Reading(messages)
    else
      match Absorb(c, messages, fs[0])
      case Reading(more) => Collect(c, more, fs[1..])
      case Ended(outcome) => Ended(outcome)
  }

  lemma {:induction false} CollectPush(c: Codec, messages: seq<StreamMessage>, fs: seq<Frame>, f: Frame)
    requires Collect(c, messages, fs).Reading?
    ensures Collect(c, messages, fs + [f]) == Absorb(c, Collect(c, messages, fs).messages, f)
    decreases |fs|
  {
    if fs == [] {
      assert (fs + [f])[1..] == [];
    } else {
      assert (fs + [f])[1..] == fs[1..] + [f];
      CollectPush(c, Absorb(c, messages, fs[0]).messages, fs[1..], f);
    }
  }

  // ---------- what it means ----------

  predicate Passes(c: Codec, f: Frame) {
    f.kind == MSG_STREAM_START || (f.kind == MSG_STREAM_CHUNK && c.decodeChunk(f.payload).Some?)
  }

  predicate AllPass(c: Codec, fs: seq<Frame>) {
    forall i :: 0 <= i < |fs| ==> Passes(c, fs[i])
  }

  predicate EndsWell(c: Codec, f: Frame) {
    && f.kind == MSG_STREAM_END
    && c.decodeStreamEnd(f.payload).Some?
    && !(ERROR_PREFIX <= c.decodeStreamEnd(f.payload).value)
  }

  /** The messages of the chunks among `fs`, in order. */
  function Chunks(c: Codec, fs: seq<Frame>): seq<StreamMessage>
    requires AllPass(c, fs)
  {
    if fs == [] then []
    else
      assert Passes(c, fs[0]);
      (if fs[0].kind == MSG_STREAM_CHUNK then [c.decodeChunk(fs[0].payload).value] else []) + Chunks(c, fs[1..])
  }

  /** The first `n` frames are starts and chunks, and frame `n` ends the stream without an error. */
  predicate EndsAt(c: Codec, fs: seq<Frame>, n: nat) {
    n < |fs| && AllPass(c, fs[..n]) && EndsWell(c, fs[n])
  }

  lemma {:induction false} CollectPassing(c: Codec, messages: seq<StreamMessage>, fs: seq<Frame>)
    requires AllPass(c, fs)
    ensures Collect(c, messages, fs) == Reading(messages + Chunks(c, fs))
    decreases |fs|
  {
    if fs == [] {
      assert messages + [] == messages;
    } else {
      assert Passes(c, fs[0]);
      CollectPassing(c, Absorb(c, messages, fs[0]).messages, fs[1..]);
    }
  }

  lemma {:induction false} CollectStops(c: Codec, messages: seq<StreamMessage>, fs: seq<Frame>, n: nat)
    requires n < |fs| && AllPass(c, fs[..n]) && !Passes(c, fs[n])
    ensures Collect(c, messages, fs) == Absorb(c, messages + Chunks(c, fs[..n]), fs[n])
    ensures Collect(c, messages, fs).Ended?
    decreases |fs|
  {
    if n == 0 {
      assert messages + [] == messages;
    } else {
      assert Passes(c, fs[..n][0]);
      assert fs[..n][1..] == fs[1..][..n - 1];
      var more := Absorb(c, messages, fs[0]).messages;
      CollectStops(c, more, fs[1..], n - 1);
      assert messages + Chunks(c, fs[..n]) == more + Chunks(c, fs[1..][..n - 1]);
    }
  }

  lemma FirstNotPassing(c: Codec, fs: seq<Frame>) returns (n: nat)
    ensures n <= |fs| && AllPass(c, fs[..n]) && (n < |fs| ==> !Passes(c, fs[n]))
  {
    n := 0;
    while n < |fs| && Passes(c, fs[n])
      invariant n <= |fs| && AllPass(c, fs[..n])
    {
      n := n + 1;
    }
  }

  predicate Readable(c: Codec, f: Frame) {
    && (f.kind == MSG_STREAM_CHUNK ==> c.decodeChunk(f.payload).Some?)
    && (f.kind == MSG_STREAM_END ==> c.decodeStreamEnd(f.payload).Some?)
    && (f.kind == MSG_ERROR ==> c.decodeFault(f.payload).Some?)
  }

  /** A stream fails at the first frame that is neither a start nor a readable chunk nor a good end: with an
      encoding error exactly if that frame's payload cannot be decoded. Until there is such a frame, or an
      end, it goes on. */
  lemma CollectedOtherwise(c: Codec, fs: seq<Frame>, n: nat)
    requires n <= |fs| && AllPass(c, fs[..n]) && (n < |fs| ==> !Passes(c, fs[n]) && !EndsWell(c, fs[n]))
    ensures n == |fs| ==> Collect(c, [], fs) == Reading(Chunks(c, fs))
    ensures n < |fs| ==>
              Collect(c, [], fs) == Ended(Err(if Readable(c, fs[n]) then Error.Protocol else Error.Encoding))
  {
    if n == |fs| {
      assert fs[..n] == fs;
      CollectPassing(c, [], fs);
      assert [] + Chunks(c, fs) == Chunks(c, fs);
    } else {
      CollectStops(c, [], fs, n);
    }
  }

  lemma PassesAt(c: Codec, fs: seq<Frame>, n: nat, k: nat)
    requires k < n <= |fs| && AllPass(c, fs[..n])
    ensures Passes(c, fs[k])
  {
    assert fs[..n][k] == fs[k];
  }

  lemma EndsAtFirst(c: Codec, fs: seq<Frame>, n: nat, k: nat)
    requires n <= |fs| && AllPass(c, fs[..n]) && (n < |fs| ==> !Passes(c, fs[n]))
    requires EndsAt(c, fs, k)
    ensures k == n
  {
    if k < n {
      PassesAt(c, fs, n, k);
    } else if n < k {
      PassesAt(c, fs, k, n);
    }
  }

  /** A stream is collected successfully exactly when starts and readable chunks run up to an end
      without an error, and the result is then the chunks' messages, all of them and in order. */
  lemma CollectedIffEndsWell(c: Codec, fs: seq<Frame>, messages: seq<StreamMessage>)
    ensures Collect(c, [], fs) == Ended(Ok(messages)) <==>
            exists n: nat :: EndsAt(c, fs, n) && messages == Chunks(c, fs[..n])
  {
    var n := FirstNotPassing(c, fs);
    if n == |fs| {
      assert fs[..n] == fs;
      CollectPassing(c, [], fs);
    } else {
      CollectStops(c, [], fs, n);
      assert [] + Chunks(c, fs[..n]) == Chunks(c, fs[..n]);
    }
    forall k: nat | EndsAt(c, fs, k) ensures k == n {
      EndsAtFirst(c, fs, n, k);
    }
    if Collect(c, [], fs) == Ended(Ok(messages)) {
      assert EndsAt(c, fs, n);
    }
  }
}
