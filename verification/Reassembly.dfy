/**
 Sending and reassembling messages, as DataChannelManager does it (internal/webrtc/datachannel.go), and what a
 buffer that makes the receiver panic does to everything after it.
 */
module Reassembly {
  import opened Bytes
  import opened Framing

  datatype Message = Message(requestID: uint32, data: bytes)

  /** The chunks of one multi-chunk message; `totalChunks` is what the first chunk to arrive announced. */
  datatype Buffer = Buffer(totalChunks: uint32, received: map<uint32, bytes>)

  type Table = map<uint32, Buffer>

  // ---- what one frame does

  /** The first n chunks in index order; an absent chunk contributes nothing. */
  function Join(received: map<uint32, bytes>, n: uint32): bytes
  {
    if n == 0 then [] else Join(received, n - 1) + (if n - 1 in received then received[n - 1] else [])
  }

  datatype Slot = Slot(entry: Option<Buffer>, emitted: seq<Message>)

  /** What a frame with a non-zero request ID does to the buffer of that ID. */
  function AcceptAt(entry: Option<Buffer>, f: Frame): Slot
  {
    if f.totalChunks == 1 then
      Slot(entry, [Message(f.requestID, f.payload)])
    else
      var buf := if entry.Some? then entry.value else Buffer(f.totalChunks, map[]);
      var received := buf.received[f.chunkIndex := f.payload];
      if |received| % TWO32 == buf.totalChunks then
        Slot(None, [Message(f.requestID, Join(received, buf.totalChunks))])
      else
        Slot(Some(buf.(received := received)), [])
  }

  function Entry(t: Table, id: uint32): Option<Buffer>
  {
    if id in t then Some(t[id]) else None
  }

  function SetEntry(t: Table, id: uint32, e: Option<Buffer>): (t': Table)
    ensures Entry(t', id) == e
    ensures forall other: uint32 :: other != id ==> Entry(t', other) == Entry(t, other)
  {
    match e
    case Some(b) => t[id := b]
    case None => t - {id}
  }

  datatype State = State(table: Table, emitted: seq<Message>)

  function Accept(t: Table, f: Frame): State
  {
    if f.requestID == 0 then
      State(t, [])
    else
      var r := AcceptAt(Entry(t, f.requestID), f);
      State(SetEntry(t, f.requestID, r.entry), r.emitted)
  }

  /** Receiving a list of frames from the table t on. */
  function Run(t: Table, fs: seq<Frame>): State
  {
    if fs == [] then
      State(t, [])
    else
      var before := Run(t, fs[..|fs| - 1]);
      var last := Accept(before.table, fs[|fs| - 1]);
      State(last.table, before.emitted + last.emitted)
  }

  datatype Received = Running(state: State) | Crashed(state: State)

  /** Receiving raw buffers: undecodable ones are skipped, and a panic ends the receiver. */
  function Receive(t: Table, raws: seq<bytes>): Received
  {
    if raws == [] then
      Running(State(t, []))
    else
      match Receive(t, raws[..|raws| - 1])
      case Crashed(s) => Crashed(s)
      case Running(s) =>
        match DecodeFrame(raws[|raws| - 1])
        case Decoded(f) =>
          var r := Accept(s.table, f);
          Running(State(r.table, s.emitted + r.emitted))
        case Panic => Crashed(s)
        case _ => Running(s)
  }

  lemma {:induction false} StaysCrashed(t: Table, raws: seq<bytes>, n: nat)
    requires n <= |raws| && Receive(t, raws[..n]).Crashed?
    ensures Receive(t, raws) == Receive(t, raws[..n])
    decreases |raws|
  {
    if n == |raws| {
      assert raws[..n] == raws;
    } else {
      assert raws[..|raws| - 1][..n] == raws[..n];
      StaysCrashed(t, raws[..|raws| - 1], n);
    }
  }

  predicate Fits(f: Frame)
  {
    HEADER_SIZE + |f.payload| < TWO32
  }

  /** Receiving the encodings of frames is receiving the frames. */
  lemma {:induction false} ReceiveIsRun(t: Table, fs: seq<Frame>)
    requires forall i :: 0 <= i < |fs| ==> Fits(fs[i])
    ensures Receive(t, EncodeAll(fs)) == Running(Run(t, fs))
  {
    hide Accept;
    hide DecodeFrame;
    hide Encoded;
    if fs != [] {
      var n := |fs| - 1;
      ReceiveIsRun(t, fs[..n]);
      assert EncodeAll(fs)[..n] == EncodeAll(fs[..n]);
      assert Fits(fs[n]);
      DecodeUndoesEncode(fs[n], []);
      assert Encoded(fs[n]) + [] == Encoded(fs[n]);
    }
  }

  /** The first buffer whose decoding panics, or the number of buffers if none does. */
  function FirstPanic(raws: seq<bytes>): (k: nat)
    ensures k <= |raws| && (k < |raws| ==> DecodeFrame(raws[k]) == Panic)
    ensures forall i :: 0 <= i < k ==> DecodeFrame(raws[i]) != Panic
  {
    if raws == [] then 0
    else
      var k := FirstPanic(raws[..|raws| - 1]);
      if k < |raws| - 1 || DecodeFrame(raws[|raws| - 1]) == Panic then k else |raws|
  }

  /** The frames that can be decoded, in order. */
  function Readable(raws: seq<bytes>): seq<Frame>
  {
    if raws == [] then []
    else
      var d := DecodeFrame(raws[|raws| - 1]);
      Readable(raws[..|raws| - 1]) + (if d.Decoded? then [d.frame] else [])
  }

  /**
   Receiving any raw buffers: those that are too short or truncated are skipped, all others are received as frames, up
   to the first that panics, where the receiver ends.
   */
  lemma {:induction false} ReceivedExactly(t: Table, raws: seq<bytes>)
    ensures var k := FirstPanic(raws);
            var s := Run(t, Readable(raws[..k]));
            Receive(t, raws) == if k < |raws| then Crashed(s) else Running(s)
  {
    hide DecodeFrame;
    hide Accept;
    if raws != [] {
      var n := |raws| - 1;
      ReceivedExactly(t, raws[..n]);
      var k, before := FirstPanic(raws[..n]), Readable(raws[..n]);
      assert raws[..n][..k] == raws[..k] && raws[..n + 1] == raws && raws[..n][..n] == raws[..n];
      if k == n {
        match DecodeFrame(raws[n])
        case Decoded(f) =>
          assert Readable(raws) == before + [f];
          RunSnoc(t, before, f);
        case Panic => assert FirstPanic(raws) == n;
        case _ => assert Readable(raws) == before + [] == before;
      }
    }
    hide Run;
  }

  lemma RunSnoc(t: Table, fs: seq<Frame>, f: Frame)
    ensures var before := Run(t, fs);
            var last := Accept(before.table, f);
            Run(t, fs + [f]) == State(last.table, before.emitted + last.emitted)
  {
    hide Accept;
    assert (fs + [f])[..|fs|] == fs;
  }

  /** The first frame from the i-th on that peer.Send refuses, or n when it takes them all. */
  function FirstRefused(i: nat, n: nat, sendOk: nat -> bool): (k: nat)
    requires i <= n
    ensures i <= k <= n
    ensures forall j :: i <= j < k ==> sendOk(j)
    ensures k < n ==> !sendOk(k)
    decreases n - i
  {
    if i == n || !sendOk(i) then i else FirstRefused(i + 1, n, sendOk)
  }

  lemma EncodeAllSnoc(fs: seq<Frame>, i: nat)
    requires i < |fs|
    ensures EncodeAll(fs[..i + 1]) == EncodeAll(fs[..i]) + [Encoded(fs[i])]
  {
  }

  class DataChannelManager {
    /** request ID to buffer */
    var reassembly: Table
    /** what peer.Send accepted so far */
    var sent: seq<bytes>

    constructor ()
      ensures reassembly == map[] && sent == []
    {
      reassembly := map[];
      sent := [];
    }

    method SendFrame(frame: Frame, accepted: bool) returns (err: bool)
      modifies this`sent
      ensures err == !accepted && sent == old(sent) + (if accepted then [Encoded(frame)] else [])
    {
      var encoded := EncodeFrame(frame);
      if accepted {
        sent := sent + [encoded[..]];
      }
      return !accepted;
    }

    method CutFrame(requestID: uint32, data: bytes, i: uint32, totalChunks: uint32) returns (frame: Frame)
      requires i < totalChunks == |Frames(requestID, data)|
      ensures frame == Frames(requestID, data)[i]
    {
      FrameIsSlice(requestID, data, i);
      var start := i * MAX_PAYLOAD;
      var end := start + MAX_PAYLOAD;
      if end > |data| {
        end := |data|;
      }
      return Frame(requestID, i, totalChunks, data[start..end]);
    }

    /** `sendOk(i)` is whether peer.Send accepts the i-th frame of this message. */
    method SendMessage(requestID: uint32, data: bytes, sendOk: nat -> bool) returns (ok: bool)
      modifies this`sent
      ensures var fs := Frames(requestID, data);
              var k := FirstRefused(0, |fs|, sendOk);
              sent == old(sent) + EncodeAll(fs[..k]) && (ok <==> k == |fs|)
    {
      var totalChunks := WireCount(|data|);
      FramesCount(requestID, data);
      ghost var fs := Frames(requestID, data);
      for i := 0 to totalChunks
        invariant sent == old(sent) + EncodeAll(fs[..i])
        invariant FirstRefused(0, |fs|, sendOk) == FirstRefused(i, |fs|, sendOk)
      {
        var frame := CutFrame(requestID, data, i, totalChunks);
        var err := SendFrame(frame, sendOk(i));
        if err {
          return false;
        }
        EncodeAllSnoc(fs, i);
      }
      assert fs[..totalChunks] == fs;
      return true;
    }

    method Assemble(received: map<uint32, bytes>, totalChunks: uint32) returns (data: bytes)
      ensures data == Join(received, totalChunks)
    {
      data := [];
      for i := 0 to totalChunks
        invariant data == Join(received, i)
      {
        if i in received {
          data := data + received[i];
        }
      }
    }

    method HandleFrame(frame: Frame) returns (output: seq<Message>)
      modifies this`reassembly
      ensures State(reassembly, output) == Accept(old(reassembly), frame)
    {
      if frame.requestID == 0 {
        return [];
      }
      var key := frame.requestID;
      if frame.totalChunks == 1 {
        assert SetEntry(reassembly, key, Entry(reassembly, key)) == reassembly;
        return [Message(key, frame.payload)];
      }
      if key !in reassembly {
        reassembly := reassembly[key := Buffer(frame.totalChunks, map[])];
      }
      var buf := reassembly[key];
      buf := buf.(received := buf.received[frame.chunkIndex := frame.payload]);
      reassembly := reassembly[key := buf];
      if |buf.received| % TWO32 == buf.totalChunks {
        var data := Assemble(buf.received, buf.totalChunks);
        reassembly := reassembly - {key};
        assert reassembly == old(reassembly) - {key};
        return [Message(key, data)];
      }
      return [];
    }

    /** Drains `raws` from the peer; `panicked` tells that a buffer ended the receiving goroutine. */
    method ProcessIncoming(raws: seq<bytes>) returns (output: seq<Message>, panicked: bool)
      modifies this`reassembly
      ensures var r := Receive(old(reassembly), raws);
              r.state == State(reassembly, output) && (panicked <==> r.Crashed?)
    {
      output := [];
      panicked := false;
      for n := 0 to |raws|
        invariant Receive(old(reassembly), raws[..n]) == Running(State(reassembly, output))
      {
        assert raws[..n + 1][..n] == raws[..n];
        var result := DecodeFrame(raws[n]);
        if result.Panic? {
          StaysCrashed(old(reassembly), raws, n + 1);
          return output, true;
        }
        if result.Decoded? {
          var emitted := HandleFrame(result.frame);
          output := output + emitted;
        }
      }
      assert raws[..|raws|] == raws;
    }
  }
}
