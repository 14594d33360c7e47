/** The length-prefixed wire format: framing as functions on byte strings, and the reader and
    writer that work through a buffered transport. */
module Wire {
  import opened Wrappers

  type Byte = b: int | 0 <= b < 256
  type Bytes = seq<Byte>

  const MAX_MESSAGE_SIZE: nat := 16 * 1024 * 1024
  const PROTOCOL_VERSION: Byte := 1

  const MSG_HANDSHAKE: Byte := 0x01
  const MSG_HANDSHAKE_ACK: Byte := 0x02
  const MSG_REQUEST: Byte := 0x10
  const MSG_RESPONSE: Byte := 0x11
  const MSG_STREAM_REQUEST: Byte := 0x12
  const MSG_STREAM_START: Byte := 0x13
  const MSG_STREAM_CHUNK: Byte := 0x14
  const MSG_STREAM_END: Byte := 0x15
  const MSG_ERROR: Byte := 0x1F
  const MSG_PING: Byte := 0x40
  const MSG_PONG: Byte := 0x41
  const MSG_CLOSE: Byte := 0x50
  const MSG_SCHEMA_REQUEST: Byte := 0x60
  const MSG_SCHEMA_RESPONSE: Byte := 0x61

  datatype Frame = Frame(kind: Byte, payload: Bytes)

  /** `write_message` refuses anything longer. */
  predicate Writable(f: Frame) {
    2 + |f.payload| <= MAX_MESSAGE_SIZE
  }

  predicate AllWritable(fs: seq<Frame>) {
    forall i :: 0 <= i < |fs| ==> Writable(fs[i])
  }

  function ToBigEndian(n: nat): (b: Bytes)
    requires n < 0x1_0000_0000
    ensures |b| == 4
  {
    [n / 0x100_0000, n / 0x1_0000 % 256, n / 0x100 % 256, n % 256]
  }

  function FromBigEndian(b: Bytes): nat
    requires |b| == 4
  {
    b[0] as int * 0x100_0000 + b[1] as int * 0x1_0000 + b[2] as int * 0x100 + b[3] as int
  }

  lemma BigEndianRoundTrip(n: nat)
    requires n < 0x1_0000_0000
    ensures FromBigEndian(ToBigEndian(n)) == n
  {
    assert n / 0x1_0000 == n / 0x100_0000 * 256 + n / 0x1_0000 % 256;
    assert n / 0x100 == n / 0x1_0000 * 256 + n / 0x100 % 256;
    assert n == n / 0x100 * 256 + n % 256;
  }

  function Header(f: Frame): (b: Bytes)
    requires Writable(f)
    ensures |b| == 6
  {
    ToBigEndian(2 + |f.payload|) + [f.kind, PROTOCOL_VERSION]
  }

  function Encode(f: Frame): (b: Bytes)
    requires Writable(f)
    ensures |b| == 6 + |f.payload|
  {
    Header(f) + f.payload
  }

  function EncodeAll(fs: seq<Frame>): Bytes
    requires AllWritable(fs)
  {
    if fs == [] then [] else Encode(fs[0]) + EncodeAll(fs[1..])
  }

  /** What a reader that has received `bs` so far can tell: more bytes are needed, the length
      field is out of range, or there is a frame, followed by the bytes it leaves alone. */
  datatype Parse =
    | Incomplete
    | BadLength
    | Complete(frame: Frame, rest: Bytes)

  predicate LengthInRange(len: nat) {
    2 <= len <= MAX_MESSAGE_SIZE
  }

  function Decode(bs: Bytes): Parse {
    if |bs| < 4 then Incomplete
    else
      var len := FromBigEndian(bs[..4]);
      if !LengthInRange(len) then BadLength
      else if |bs| < 4 + len then Incomplete
      else Complete(Frame(bs[4], bs[6..4 + len]), bs[4 + len..])
  }

  /** Reads `n` frames in a row. */
  function DecodeMany(bs: Bytes, n: nat): Option<(seq<Frame>, Bytes)> {
    if n == 0 then Some(([], bs))
    else
      match Decode(bs)
      case Complete(f, rest) =>
        (match DecodeMany(rest, n - 1)
         case Some((fs, left)) => Some(([f] + fs, left))
         case None => None)
      case _ => None
  }

  // ---------- framing lemmas ----------

  lemma EncodedLength(f: Frame, tail: Bytes)
    requires Writable(f)
    ensures (Encode(f) + tail)[..4] == ToBigEndian(2 + |f.payload|)
    ensures FromBigEndian((Encode(f) + tail)[..4]) == 2 + |f.payload|
  {
    BigEndianRoundTrip(2 + |f.payload|);
    assert (Encode(f) + tail)[..4] == ToBigEndian(2 + |f.payload|);
  }

  /** Round trip, whatever follows the frame. */
  lemma DecodeEncode(f: Frame, tail: Bytes)
    requires Writable(f)
    ensures Decode(Encode(f) + tail) == Complete(f, tail)
  {
    EncodedLength(f, tail);
    var bs := Encode(f) + tail;
    assert bs[6..6 + |f.payload|] == f.payload;
    assert bs[6 + |f.payload|..] == tail;
  }

  /** The bytes of a frame: its length, counting the type and the version, most significant byte first, then
      the type, the version and the payload. */
  lemma FrameLayout(f: Frame, len: nat)
    requires Writable(f) && len == |f.payload| + 2
    ensures var b := Encode(f);
            && len == b[0] as int * 0x100_0000 + b[1] as int * 0x1_0000 + b[2] as int * 0x100 + b[3] as int
            && b[4] == f.kind && b[5] == PROTOCOL_VERSION && b[6..] == f.payload
  {
    EncodedLength(f, []);
    assert Encode(f) + [] == Encode(f);
    assert Encode(f)[..4] == ToBigEndian(len);
  }

  /** The writer and the reader agree on the largest frame: bytes laid out as a frame of any length are read
      as that frame exactly if the writer would have written them, and rejected otherwise. */
  lemma WritableIffReadable(kind: Byte, version: Byte, payload: Bytes)
    requires 2 + |payload| < 0x1_0000_0000
    ensures var bs := ToBigEndian(2 + |payload|) + [kind, version] + payload;
            Decode(bs) == if Writable(Frame(kind, payload)) then Complete(Frame(kind, payload), []) else BadLength
  {
    var len := 2 + |payload|;
    var bs := ToBigEndian(len) + [kind, version] + payload;
    BigEndianRoundTrip(len);
    assert bs[..4] == ToBigEndian(len);
    assert bs[6..] == payload && |bs| == 4 + len;
    assert bs[6..4 + len] == payload && bs[4 + len..] == [];
  }

  /** No proper prefix of a frame reads as anything. */
  lemma DecodeProperPrefix(f: Frame, p: Bytes)
    requires Writable(f)
    requires p <= Encode(f) && |p| < |Encode(f)|
    ensures Decode(p) == Incomplete
  {
    if |p| >= 4 {
      EncodedLength(f, []);
      assert Encode(f) + [] == Encode(f);
      assert p[..4] == Encode(f)[..4];
    }
  }

  /** A verdict, once reached, does not change when more bytes arrive. */
  lemma DecodeStable(bs: Bytes, more: Bytes)
    ensures Decode(bs).BadLength? ==> Decode(bs + more) == BadLength
    ensures Decode(bs).Complete? ==>
              Decode(bs + more) == Complete(Decode(bs).frame, Decode(bs).rest + more)
  {
    if |bs| >= 4 {
      assert (bs + more)[..4] == bs[..4];
      var len := FromBigEndian(bs[..4]);
      if LengthInRange(len) && |bs| >= 4 + len {
        assert (bs + more)[6..4 + len] == bs[6..4 + len];
        assert (bs + more)[4 + len..] == bs[4 + len..] + more;
      }
    }
  }

  /** Decoding consumes at least the six header bytes. */
  lemma DecodeConsumes(bs: Bytes)
    requires Decode(bs).Complete?
    ensures |Decode(bs).rest| + 6 <= |bs|
    ensures Writable(Decode(bs).frame)
  {
  }

  /** A reader holding some of the bytes of a list of frames either needs more or sees the first
      frame of the list, and then holds some of the bytes of the rest of the list. */
  lemma DecodePrefixOfMany(fs: seq<Frame>, p: Bytes)
    requires AllWritable(fs) && p <= EncodeAll(fs)
    ensures !Decode(p).BadLength?
    ensures Decode(p).Complete? ==>
              && fs != []
              && Decode(p).frame == fs[0]
              && p == Encode(fs[0]) + Decode(p).rest
              && Decode(p).rest <= EncodeAll(fs[1..])
  {
    if fs != [] {
      var e := Encode(fs[0]);
      if |p| < |e| {
        assert p <= e;
        DecodeProperPrefix(fs[0], p);
      } else {
        var tail := p[|e|..];
        assert p == e + tail;
        DecodeEncode(fs[0], tail);
        assert EncodeAll(fs)[|e|..] == EncodeAll(fs[1..]);
      }
    }
  }

  lemma {:induction false} EncodeAllAppend(fs: seq<Frame>, gs: seq<Frame>)
    requires AllWritable(fs) && AllWritable(gs)
    ensures AllWritable(fs + gs)
    ensures EncodeAll(fs + gs) == EncodeAll(fs) + EncodeAll(gs)
  {
    if fs == [] {
      assert fs + gs == gs;
    } else {
      EncodeAllAppend(fs[1..], gs);
      assert (fs + gs)[1..] == fs[1..] + gs;
      hide Encode, Writable;
      Regroup(Encode(fs[0]), EncodeAll(fs[1..]), EncodeAll(gs));
    }
  }

  lemma DecodeManyStep(bs: Bytes, n: nat, f: Frame, rest: Bytes, fs: seq<Frame>, left: Bytes)
    requires n > 0 && Decode(bs) == Complete(f, rest)
    requires DecodeMany(rest, n - 1) == Some((fs, left))
    ensures DecodeMany(bs, n) == Some(([f] + fs, left))
  {
  }

  /** Reading back any list of frames, followed by anything, gives exactly that list and leaves
      exactly what followed. */
  lemma {:induction false} FramingRoundTrip(fs: seq<Frame>, suffix: Bytes)
    requires AllWritable(fs)
    ensures DecodeMany(EncodeAll(fs) + suffix, |fs|) == Some((fs, suffix))
  {
    if fs == [] {
      assert EncodeAll(fs) + suffix == suffix;
    } else {
      var tail := EncodeAll(fs[1..]) + suffix;
      assert EncodeAll(fs) + suffix == Encode(fs[0]) + tail;
      DecodeEncode(fs[0], tail);
      FramingRoundTrip(fs[1..], suffix);
      DecodeManyStep(EncodeAll(fs) + suffix, |fs|, fs[0], tail, fs[1..], suffix);
      assert [fs[0]] + fs[1..] == fs;
    }
  }

  /** Two lists of frames never share an encoding, even when one is a prefix of the other's bytes. */
  lemma {:induction false} FramingUnique(fs: seq<Frame>, gs: seq<Frame>, suffix: Bytes)
    requires AllWritable(fs) && AllWritable(gs)
    requires EncodeAll(fs) == EncodeAll(gs) + suffix
    ensures gs <= fs && AllWritable(fs[|gs|..]) && suffix == EncodeAll(fs[|gs|..])
  {
    if gs == [] {
      assert fs[0..] == fs;
    } else {
      var tail := EncodeAll(gs[1..]) + suffix;
      assert EncodeAll(fs) == Encode(gs[0]) + tail;
      DecodeEncode(gs[0], tail);
      DecodePrefixOfMany(fs, EncodeAll(fs));
      assert EncodeAll(fs) == Encode(fs[0]) + EncodeAll(fs[1..]);
      DecodeEncode(fs[0], EncodeAll(fs[1..]));
      FramingUnique(fs[1..], gs[1..], suffix);
      assert fs[1..][|gs| - 1..] == fs[|gs|..];
    }
  }

  // ---------- the buffered transport ----------

  function Flatten(chunks: seq<Bytes>): Bytes {
    if chunks == [] then [] else chunks[0] + Flatten(chunks[1..])
  }

  function Min(a: nat, b: nat): nat {
    if a < b then a else b
  }

  lemma Regroup(a: Bytes, b: Bytes, c: Bytes)
    ensures a + (b + c) == (a + b) + c
  {
  }

  method CopyInto(dst: array<Byte>, at: nat, piece: Bytes)
    requires at + |piece| <= dst.Length
    modifies dst
    ensures dst[..at + |piece|] == old(dst[..at]) + piece
  {
    for i := 0 to |piece|
      invariant dst[..at + i] == old(dst[..at]) + piece[..i]
    {
      dst[at + i] := piece[i];
      assert dst[..at + i + 1] == dst[..at + i] + [piece[i]];
    }
  }

  /** A buffered reader over a transport that delivers its bytes in chunks of arbitrary sizes. */
  class BufReader {
    var buffer: Bytes
    var chunks: seq<Bytes>

    constructor (arriving: seq<Bytes>)
      ensures buffer == [] && chunks == arriving
      ensures Unread() == Flatten(arriving)
    {
      buffer, chunks := [], arriving;
    }

    /** All bytes this reader will still hand out before end of file. */
    ghost function Unread(): Bytes
      reads this
    {
      buffer + Flatten(chunks)
    }

    /** Receives the next chunk into the empty buffer. */
    method Refill()
      requires buffer == [] && chunks != []
      modifies this
      ensures Unread() == old(Unread()) && |chunks| == |old(chunks)| - 1
    {
      buffer, chunks := chunks[0], chunks[1..];
    }

    method TakeBuffered(n: nat) returns (piece: Bytes)
      requires n <= |buffer|
      modifies this
      ensures |piece| == n && old(Unread()) == piece + Unread()
    {
      piece := buffer[..n];
      Regroup(piece, buffer[n..], Flatten(chunks));
      assert buffer == piece + buffer[n..];
      buffer := buffer[n..];
    }

    method ReadExact(dst: array<Byte>) returns (ok: bool)
      modifies this, dst
      ensures ok == (dst.Length <= |old(Unread())|)
      ensures ok ==> dst[..] == old(Unread())[..dst.Length]
      ensures Unread() == if ok then old(Unread())[dst.Length..] else []
    {
      ghost var whole := Unread();
      ghost var done: Bytes := [];
      var filled := 0;
      while filled < dst.Length
        invariant |done| == filled <= dst.Length && dst[..filled] == done
        invariant done + Unread() == whole
        decreases dst.Length - filled, |chunks|
      {
        if buffer == [] {
          if chunks == [] {
            assert whole == done;
            return false;
          }
          Refill();
        } else {
          var piece := TakeBuffered(Min(|buffer|, dst.Length - filled));
          CopyInto(dst, filled, piece);
          Regroup(done, piece, Unread());
          done, filled := done + piece, filled + |piece|;
        }
      }
      assert dst[..] == dst[..filled];
      ok := true;
    }

    /** A fresh buffer of `n` bytes, filled. */
    method ReadArray(n: nat) returns (ok: bool, bs: Bytes)
      modifies this
      ensures ok == (n <= |old(Unread())|)
      ensures ok ==> bs == old(Unread())[..n] && Unread() == old(Unread())[n..]
      ensures !ok ==> Unread() == []
    {
      var dst := new Byte[n];
      ok := ReadExact(dst);
      bs := dst[..];
    }

    /** The result and the bytes left over are those of `Decode` on everything that was going to
        arrive, so they do not depend on how it was chunked. */
    method ReadMessage() returns (r: Result<Frame>)
      modifies this
      ensures match Decode(old(Unread()))
              case Complete(f, rest) => r == Ok(f) && Unread() == rest
              case BadLength => r == Err(InvalidMessage) && Unread() == old(Unread())[4..]
              case Incomplete => r == Err(ConnectionFailed) && Unread() == []
    {
      ghost var bs := Unread();
      var ok, lenBuf := ReadArray(4);
      if !ok {
        return Err(ConnectionFailed);
      }
      var len := FromBigEndian(lenBuf);
      if len < 2 || len > MAX_MESSAGE_SIZE {
        return Err(InvalidMessage);
      }
      var typeBuf, versionBuf, payload;
      ok, typeBuf := ReadArray(1);
      if ok {
        ok, versionBuf := ReadArray(1);
      }
      if !ok {
        return Err(ConnectionFailed);
      }
      assert Unread() == bs[6..];
      ok, payload := ReadArray(len - 2);
      if !ok {
        return Err(ConnectionFailed);
      }
      assert payload == bs[6..][..len - 2] == bs[6..4 + len];
      assert Unread() == bs[6..][len - 2..] == bs[4 + len..];
      r := Ok(Frame(typeBuf[0], payload));
    }

    /** Reads back a list of frames from any chunking of its bytes. */
    method ReadAll(ghost fs: seq<Frame>, ghost suffix: Bytes, n: nat) returns (got: seq<Frame>)
      requires AllWritable(fs) && n == |fs|
      requires Unread() == EncodeAll(fs) + suffix
      modifies this
      ensures got == fs && Unread() == suffix
    {
      got := [];
      assert fs[0..] == fs;
      for i := 0 to n
        invariant got == fs[..i]
        invariant AllWritable(fs[i..])
        invariant Unread() == EncodeAll(fs[i..]) + suffix
      {
        assert fs[i..][1..] == fs[i + 1..];
        assert Unread() == Encode(fs[i]) + (EncodeAll(fs[i + 1..]) + suffix);
        DecodeEncode(fs[i], EncodeAll(fs[i + 1..]) + suffix);
        var r := ReadMessage();
        got := got + [r.value];
      }
      assert EncodeAll(fs[n..]) + suffix == suffix;
    }
  }

  /** A buffered writer over a transport that takes `credit` more bytes and then fails. */
  class BufWriter {
    var buffer: Bytes
    var sent: Bytes
    var credit: nat

    constructor (credit: nat)
      ensures buffer == [] && sent == [] && this.credit == credit
    {
      buffer, sent, this.credit := [], [], credit;
    }

    /** Buffers `bs`, spilling the first `spill` of the buffered bytes to the transport, which is
        what a full buffer makes the writer do at some point. */
    method WriteAll(bs: Bytes, spill: nat) returns (ok: bool)
      modifies this
      ensures old(sent) <= sent && |sent| - |old(sent)| == old(credit) - credit
      ensures ok ==> sent + buffer == old(sent + buffer) + bs
      ensures !ok ==> sent <= old(sent + buffer) + bs && credit == 0
      ensures !ok ==> |old(buffer)| + |bs| > old(credit)
    {
      buffer := buffer + bs;
      ok := Transfer(Min(spill, |buffer|));
    }

    method Flush() returns (ok: bool)
      modifies this
      ensures old(sent) <= sent && |sent| - |old(sent)| == old(credit) - credit
      ensures ok ==> sent == old(sent + buffer) && buffer == []
      ensures !ok ==> sent <= old(sent + buffer) && credit == 0 && |old(buffer)| > old(credit)
    {
      ok := Transfer(|buffer|);
    }

    method Transfer(n: nat) returns (ok: bool)
      requires n <= |buffer|
      modifies this
      ensures ok == (n <= old(credit))
      ensures sent == old(sent) + old(buffer)[..Min(n, old(credit))]
      ensures buffer == old(buffer)[Min(n, old(credit))..]
      ensures credit == old(credit) - Min(n, old(credit))
    {
      var m := Min(n, credit);
      ok := n <= credit;
      sent, buffer, credit := sent + buffer[..m], buffer[m..], credit - m;
    }

    /** An oversized frame is refused before a byte is sent. Otherwise the frame arrives whole and
        flushed, or the transport failed inside it. */
    method WriteMessage(f: Frame, spill: nat) returns (r: Result<()>)
      requires buffer == []
      modifies this
      ensures !Writable(f) ==> r == Err(InvalidMessage) && sent == old(sent) && buffer == [] && credit == old(credit)
      ensures Writable(f) && |Encode(f)| <= old(credit) ==> r.Ok?
      ensures r.Ok? ==> Writable(f) && sent == old(sent) + Encode(f) && buffer == []
      ensures Writable(f) && r.Err? ==> r == Err(ConnectionFailed) && old(sent) <= sent <= old(sent) + Encode(f) && credit == 0
      ensures |sent| - |old(sent)| == old(credit) - credit
    {
      var len := 2 + |f.payload|;
      if len > MAX_MESSAGE_SIZE {
        return Err(InvalidMessage);
      }
      var pieces := Pieces(f);
      ghost var whole := sent + Encode(f);
      for i := 0 to |pieces|
        invariant old(sent) <= sent && |sent| - |old(sent)| == old(credit) - credit
        invariant sent + buffer + Flatten(pieces[i..]) == whole
      {
        ghost var tail := Flatten(pieces[i + 1..]);
        assert pieces[i..][1..] == pieces[i + 1..];
        assert sent + buffer + Flatten(pieces[i..]) == sent + buffer + pieces[i] + tail;
        var ok := WriteAll(pieces[i], spill);
        if !ok {
          return Err(ConnectionFailed);
        }
      }
      assert Flatten(pieces[|pieces|..]) == [];
      var ok := Flush();
      r := if ok then Ok(()) else Err(ConnectionFailed);
    }
  }

  /** The four writes of `write_message`. */
  function Pieces(f: Frame): (pieces: seq<Bytes>)
    requires Writable(f)
    ensures Flatten(pieces) == Encode(f)
  {
    var a, b, c, d := ToBigEndian(2 + |f.payload|), [f.kind], [PROTOCOL_VERSION], f.payload;
    FlattenFour(a, b, c, d);
    assert a + (b + (c + d)) == Encode(f);
    [a, b, c, d]
  }

  lemma FlattenFour(a: Bytes, b: Bytes, c: Bytes, d: Bytes)
    ensures Flatten([a, b, c, d]) == a + (b + (c + d))
  {
    assert [a, b, c, d][1..] == [b, c, d] && [b, c, d][1..] == [c, d] && [c, d][1..] == [d] && [d][1..] == [];
    assert Flatten([d]) == d + [] == d;
    assert Flatten([c, d]) == c + d;
    assert Flatten([b, c, d]) == b + (c + d);
  }
}
