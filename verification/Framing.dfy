/**
 The frame format of internal/webrtc/datachannel.go: a 16-byte big-endian header
 followed by the payload, and the cutting of a message into frames.
 */
module Framing {
  import opened Bytes

  const HEADER_SIZE := 16
  const MAX_CHUNK_SIZE := 16 * 1024
  const MAX_PAYLOAD := MAX_CHUNK_SIZE - HEADER_SIZE

  datatype Frame = Frame(requestID: uint32, chunkIndex: uint32, totalChunks: uint32, payload: bytes)

  /** Panic is the slice expression whose upper bound, a wrapped uint32, lies below its lower bound. */
  datatype DecodeResult = Decoded(frame: Frame) | TooShort | Truncated | Panic

  /** The length field keeps the low 32 bits of the payload length. */
  function Header(f: Frame): (h: bytes)
    ensures |h| == HEADER_SIZE
  {
    PutUint32(f.requestID) + PutUint32(f.chunkIndex) + PutUint32(f.totalChunks) + PutUint32(|f.payload| % TWO32)
  }

  function Encoded(f: Frame): bytes
  {
    Header(f) + f.payload
  }

  method EncodeFrame(f: Frame) returns (buf: array<byte>)
    ensures fresh(buf) && buf[..] == Encoded(f)
  {
    buf := new byte[HEADER_SIZE + |f.payload|];
    PutHeader(buf, f);
    for i := 0 to |f.payload|
      invariant buf[..HEADER_SIZE] == Header(f)
      invariant buf[HEADER_SIZE..HEADER_SIZE + i] == f.payload[..i]
    {
      buf[HEADER_SIZE + i] := f.payload[i];
    }
    assert buf[..] == buf[..HEADER_SIZE] + buf[HEADER_SIZE..HEADER_SIZE + |f.payload|];
  }

  method PutHeader(buf: array<byte>, f: Frame)
    requires buf.Length >= HEADER_SIZE
    modifies buf
    ensures buf[..HEADER_SIZE] == Header(f)
  {
    PutInto(buf, 0, f.requestID);
    PutInto(buf, 4, f.chunkIndex);
    PutInto(buf, 8, f.totalChunks);
    assert buf[..8] == buf[..4] + buf[4..8];
    assert buf[..12] == buf[..8] + buf[8..12];
    PutInto(buf, 12, |f.payload| % TWO32);
    assert buf[..HEADER_SIZE] == buf[..12] + buf[12..16];
  }

  method PutInto(buf: array<byte>, at: nat, v: uint32)
    requires at + 4 <= buf.Length
    modifies buf
    ensures buf[at..at + 4] == PutUint32(v)
    ensures buf[..at] == old(buf[..at]) && buf[at + 4..] == old(buf[at + 4..])
  {
    var b := PutUint32(v);
    buf[at] := b[0];
    buf[at + 1] := b[1];
    buf[at + 2] := b[2];
    buf[at + 3] := b[3];
  }

  /** The bound 16 + payloadLen is computed in uint32, so it wraps. */
  function DecodeFrame(data: bytes): DecodeResult
  {
    if |data| < HEADER_SIZE then
      TooShort
    else
      var payloadLen := Uint32(data[12..16]);
      var end := (HEADER_SIZE + payloadLen) % TWO32;
      if |data| < end then
        Truncated
      else if end < HEADER_SIZE then
        Panic
      else
        Decoded(Frame(Uint32(data[0..4]), Uint32(data[4..8]), Uint32(data[8..12]), data[HEADER_SIZE..end]))
  }

  lemma HeaderFields(f: Frame, tail: bytes)
    ensures var d := Encoded(f) + tail;
            && |d| == HEADER_SIZE + |f.payload| + |tail|
            && Uint32(d[0..4]) == f.requestID && Uint32(d[4..8]) == f.chunkIndex
            && Uint32(d[8..12]) == f.totalChunks && Uint32(d[12..16]) == |f.payload| % TWO32
            && d[HEADER_SIZE..HEADER_SIZE + |f.payload|] == f.payload
  {
    var d := Encoded(f) + tail;
    assert d[0..4] == PutUint32(f.requestID);
    assert d[4..8] == PutUint32(f.chunkIndex);
    assert d[8..12] == PutUint32(f.totalChunks);
    assert d[12..16] == PutUint32(|f.payload| % TWO32);
    Uint32OfPut(f.requestID);
    Uint32OfPut(f.chunkIndex);
    Uint32OfPut(f.totalChunks);
    Uint32OfPut(|f.payload| % TWO32);
  }

  /** The four bytes of b from `at` on are the number v in network byte order. */
  predicate WordAt(b: bytes, at: nat, v: int)
  {
    at + 4 <= |b| && 16777216 * b[at] as int + 65536 * b[at + 1] as int + 256 * b[at + 2] as int + b[at + 3] as int == v
  }

  /** The format on the wire: request ID, chunk index, number of chunks and length, most significant byte first. */
  lemma WireFormat(f: Frame)
    ensures var e := Encoded(f);
            && WordAt(e, 0, f.requestID) && WordAt(e, 4, f.chunkIndex)
            && WordAt(e, 8, f.totalChunks) && WordAt(e, 12, |f.payload| % TWO32)
            && e[16..] == f.payload
  {
    WordOfPut(f.requestID);
    WordOfPut(f.chunkIndex);
    WordOfPut(f.totalChunks);
    WordOfPut(|f.payload| % TWO32);
    hide PutUint32;
  }

  lemma WordOfPut(v: uint32)
    ensures WordAt(PutUint32(v), 0, v)
  {
    var w := v / 0x100;
    var x := w / 0x100;
    assert v == w * 0x100 + v % 0x100 && w == x * 0x100 + w % 0x100 && x == x / 0x100 * 0x100 + x % 0x100;
  }

  lemma DecodeFitting(f: Frame, tail: bytes)
    requires HEADER_SIZE + |f.payload| < TWO32
    ensures DecodeFrame(Encoded(f) + tail) == Decoded(f)
  {
    HeaderFields(f, tail);
    var end := HEADER_SIZE + |f.payload|;
    assert end % TWO32 == end && |f.payload| % TWO32 == |f.payload|;
  }

  lemma DecodeOversized(f: Frame, tail: bytes)
    requires HEADER_SIZE + |f.payload| >= TWO32
    ensures DecodeFrame(Encoded(f) + tail) != Decoded(f)
  {
    HeaderFields(f, tail);
    var r := DecodeFrame(Encoded(f) + tail);
    if r.Decoded? {
      assert |r.frame.payload| < TWO32 - HEADER_SIZE;
    }
  }

  /** A frame survives the wire, whatever follows it in the buffer, exactly when 16 + its length fits 32 bits. */
  lemma DecodeUndoesEncode(f: Frame, tail: bytes)
    ensures DecodeFrame(Encoded(f) + tail) == Decoded(f) <==> HEADER_SIZE + |f.payload| < TWO32
  {
    if HEADER_SIZE + |f.payload| < TWO32 {
      DecodeFitting(f, tail);
    } else {
      DecodeOversized(f, tail);
    }
  }

  lemma HeaderOfDecoded(data: bytes)
    requires |data| >= HEADER_SIZE
    ensures PutUint32(Uint32(data[0..4])) + PutUint32(Uint32(data[4..8])) + PutUint32(Uint32(data[8..12]))
            + PutUint32(Uint32(data[12..16])) == data[..HEADER_SIZE]
  {
    hide Uint32;
    hide PutUint32;
    PutOfUint32(data[0..4]);
    PutOfUint32(data[4..8]);
    PutOfUint32(data[8..12]);
    PutOfUint32(data[12..16]);
    assert data[..HEADER_SIZE] == data[0..4] + data[4..8] + data[8..12] + data[12..16];
  }

  /** Every accepted buffer starts with the encoding of the frame it was decoded to. */
  lemma EncodeUndoesDecode(data: bytes)
    requires DecodeFrame(data).Decoded?
    ensures var f := DecodeFrame(data).frame;
            HEADER_SIZE + |f.payload| <= |data| && Encoded(f) == data[..HEADER_SIZE + |f.payload|]
  {
    hide Uint32;
    hide PutUint32;
    var f := DecodeFrame(data).frame;
    HeaderOfDecoded(data);
    assert |f.payload| == Uint32(data[12..16]);
    assert data[..HEADER_SIZE + |f.payload|] == data[..HEADER_SIZE] + data[HEADER_SIZE..HEADER_SIZE + |f.payload|];
  }

  /** Decoding takes the slice out of range exactly for the length fields of the last 16 uint32 values. */
  lemma DecodePanicsExactlyOnWrap(data: bytes)
    ensures DecodeFrame(data) == Panic <==>
            |data| >= HEADER_SIZE && Uint32(data[12..16]) > TWO32 - HEADER_SIZE - 1
  {
  }

  // ---- cutting a message into frames

  /** The message cut every MAX_PAYLOAD bytes. */
  function Chunks(data: bytes): (cs: seq<bytes>)
    ensures cs == [] <==> data == []
    ensures forall i :: 0 <= i < |cs| ==> 0 < |cs[i]| <= MAX_PAYLOAD && (i + 1 < |cs| ==> |cs[i]| == MAX_PAYLOAD)
  {
    if data == [] then []
    else if |data| <= MAX_PAYLOAD then [data]
    else [data[..MAX_PAYLOAD]] + Chunks(data[MAX_PAYLOAD..])
  }

  lemma {:induction false} ChunksCoverMessage(data: bytes)
    ensures Flatten(Chunks(data)) == data
  {
    if |data| <= MAX_PAYLOAD {
      assert data != [] ==> Chunks(data)[..0] == [] && Chunks(data)[0] == data;
    } else {
      ChunksCoverMessage(data[MAX_PAYLOAD..]);
      FlattenAppend([data[..MAX_PAYLOAD]], Chunks(data[MAX_PAYLOAD..]));
      assert [data[..MAX_PAYLOAD]][..0] == [];
    }
  }

  function ChunkCount(n: nat): nat
  {
    (n + MAX_PAYLOAD - 1) / MAX_PAYLOAD
  }

  function Min(a: int, b: int): int
  {
    if a <= b then a else b
  }

  lemma {:induction false} ChunksCount(data: bytes)
    ensures |Chunks(data)| == ChunkCount(|data|)
  {
    if |data| > MAX_PAYLOAD {
      ChunksCount(data[MAX_PAYLOAD..]);
    }
  }

  /** The slice bounds that SendMessage computes are those of the cut. */
  lemma {:induction false} ChunkBounds(data: bytes, i: nat)
    requires i < |Chunks(data)|
    ensures var start := i * MAX_PAYLOAD;
            start < |data| && Chunks(data)[i] == data[start..Min(start + MAX_PAYLOAD, |data|)]
    decreases i
  {
    if i > 0 {
      var rest := data[MAX_PAYLOAD..];
      ChunkBounds(rest, i - 1);
      var start := (i - 1) * MAX_PAYLOAD;
      SliceOfRest(data, start, Min(start + MAX_PAYLOAD, |rest|));
    }
  }

  lemma SliceOfRest(data: bytes, lo: nat, hi: nat)
    requires lo <= hi <= |data| - MAX_PAYLOAD
    ensures data[MAX_PAYLOAD..][lo..hi] == data[lo + MAX_PAYLOAD..hi + MAX_PAYLOAD]
  {
  }

  /** What SendMessage sends; it holds the chunk count in a uint32. */
  function Frames(id: uint32, data: bytes): seq<Frame>
  {
    var n := |Chunks(data)| % TWO32;
    seq(n, i requires 0 <= i < n => Frame(id, i, n, Chunks(data)[i]))
  }

  lemma FrameIsSlice(id: uint32, data: bytes, i: nat)
    requires i < |Frames(id, data)|
    ensures var start := i * MAX_PAYLOAD;
            && start < |data|
            && Frames(id, data)[i]
               == Frame(id, i, |Frames(id, data)|, data[start..Min(start + MAX_PAYLOAD, |data|)])
  {
    ChunkBounds(data, i);
  }

  /** How SendMessage counts the frames of a message of n bytes. */
  function WireCount(n: nat): uint32
  {
    ChunkCount(n) % TWO32
  }

  lemma FramesCount(id: uint32, data: bytes)
    ensures |Frames(id, data)| == WireCount(|data|)
  {
    ChunksCount(data);
  }

  function EncodeAll(fs: seq<Frame>): (r: seq<bytes>)
    ensures |r| == |fs|
    ensures forall i :: 0 <= i < |fs| ==> r[i] == Encoded(fs[i])
  {
    seq(|fs|, i requires 0 <= i < |fs| => Encoded(fs[i]))
  }

  function Payloads(fs: seq<Frame>): (r: seq<bytes>)
    ensures |r| == |fs|
    ensures forall i :: 0 <= i < |fs| ==> r[i] == fs[i].payload
  {
    seq(|fs|, i requires 0 <= i < |fs| => fs[i].payload)
  }

  /** A message that leaves at least one frame and whose chunk count fits its 32-bit field. */
  predicate Sendable(data: bytes)
  {
    0 < |Chunks(data)| < TWO32
  }

  function FrameAt(id: uint32, data: bytes, i: nat): Frame
    requires Sendable(data) && i < |Chunks(data)|
  {
    Frame(id, i, |Chunks(data)|, Chunks(data)[i])
  }

  function Split(id: uint32, data: bytes): (fs: seq<Frame>)
    requires Sendable(data)
    ensures |fs| == |Chunks(data)|
    ensures forall i :: 0 <= i < |fs| ==> fs[i] == FrameAt(id, data, i)
  {
    seq(|Chunks(data)|, i requires 0 <= i < |Chunks(data)| => FrameAt(id, data, i))
  }

  lemma FramesOfSendable(id: uint32, data: bytes)
    requires Sendable(data)
    ensures Frames(id, data) == Split(id, data)
  {
    assert |Chunks(data)| % TWO32 == |Chunks(data)|;
  }

  lemma FlattenLonger(cs: seq<bytes>, n: nat)
    requires n < |cs| && forall i :: 0 <= i < |cs| ==> |cs[i]| > 0
    ensures |Flatten(cs[..n])| < |Flatten(cs)|
  {
    FlattenAppend(cs[..n], cs[n..]);
    assert cs == cs[..n] + cs[n..];
    assert cs[n..][|cs| - n - 1] == cs[|cs| - 1];
  }

  /** The payloads put together are the message, exactly when the chunk count does not wrap. */
  lemma FramesCoverMessage(id: uint32, data: bytes)
    ensures Flatten(Payloads(Frames(id, data))) == data <==> ChunkCount(|data|) < TWO32
  {
    var cs := Chunks(data);
    var n := |cs| % TWO32;
    assert Payloads(Frames(id, data)) == cs[..n];
    ChunksCount(data);
    ChunksCoverMessage(data);
    if n < |cs| {
      FlattenLonger(cs, n);
    } else {
      assert cs[..n] == cs;
    }
  }

  /** All frames but the last are full, none is empty, none exceeds 16 KiB, and each is decoded to itself. */
  lemma FrameSizes(id: uint32, data: bytes, i: nat)
    requires i < |Frames(id, data)|
    ensures var f := Frames(id, data)[i];
            && HEADER_SIZE < |Encoded(f)| <= MAX_CHUNK_SIZE
            && (i + 1 < ChunkCount(|data|) ==> |Encoded(f)| == MAX_CHUNK_SIZE)
            && DecodeFrame(Encoded(f)) == Decoded(f)
  {
    var f := Frames(id, data)[i];
    ChunksCount(data);
    HeaderFields(f, []);
    DecodeUndoesEncode(f, []);
    assert Encoded(f) + [] == Encoded(f);
  }
}
