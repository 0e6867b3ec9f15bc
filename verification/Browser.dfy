/**
 The browser's own implementation of framing (web/webrtc-client.js) and how it
 relates to the one in Go.
 */
module Browser {
  import opened Bytes
  import opened Framing
  import opened Reassembly
  import opened Delivery

  /** `threw` is an exception leaving the event handler. */
  datatype Handled = Handled(table: Table, emitted: seq<Message>, threw: bool)

  /** assembled.set(received.get(i)) needs every index below totalChunks. */
  ghost predicate NoGap(received: map<uint32, bytes>, totalChunks: uint32)
  {
    Range(totalChunks) <= received.Keys
  }

  ghost function JsAccept(t: Table, f: Frame): Handled
  {
    if f.totalChunks == 1 then
      Handled(t, [Message(f.requestID, f.payload)], false)
    else
      var buf := if f.requestID in t then t[f.requestID] else Buffer(f.totalChunks, map[]);
      var received := buf.received[f.chunkIndex := f.payload];
      var kept := t[f.requestID := buf.(received := received)];
      if |received| != buf.totalChunks then Handled(kept, [], false)
      else if NoGap(received, buf.totalChunks) then
        Handled(t - {f.requestID}, [Message(f.requestID, Join(received, buf.totalChunks))], false)
      else Handled(kept, [], true)
  }

  /** One binary message on a data channel. The browser does not wrap 16 + payloadLen and looks at the ID first. */
  ghost function JsHandle(t: Table, data: bytes): Handled
  {
    if |data| < HEADER_SIZE || Uint32(data[0..4]) == 0 then
      Handled(t, [], false)
    else
      var payloadLen := Uint32(data[12..16]);
      if HEADER_SIZE + payloadLen > |data| then
        Handled(t, [], true)
      else
        JsAccept(t, Frame(Uint32(data[0..4]), Uint32(data[4..8]), Uint32(data[8..12]),
                          data[HEADER_SIZE..HEADER_SIZE + payloadLen]))
  }

  ghost function JsReceive(t: Table, raws: seq<bytes>): State
  {
    if raws == [] then
      State(t, [])
    else
      var before := JsReceive(t, raws[..|raws| - 1]);
      var last := JsHandle(before.table, raws[|raws| - 1]);
      State(last.table, before.emitted + last.emitted)
  }

  /** The frames of _sendFramed: the counter and the loop are Numbers, and setUint32 keeps their low 32 bits. */
  function JsFrames(counter: nat, data: bytes): seq<Frame>
  {
    var n := |Chunks(data)|;
    seq(n, i requires 0 <= i < n => Frame(counter % TWO32, i % TWO32, n % TWO32, Chunks(data)[i]))
  }

  lemma JsFramesCount(counter: nat, data: bytes)
    ensures |JsFrames(counter, data)| == |Chunks(data)|
  {
  }

  /** Whether the channel whose turn it is, i frames after the counter stood at rr, is open. */
  predicate TurnOpen(rr: nat, i: nat, open: seq<bool>)
    requires open != []
  {
    open[(rr + i) % |open|]
  }

  /** Frame i goes to channel (rr + i) mod n, and nowhere when that channel is not open. */
  function Dispatched(fs: seq<Frame>, rr: nat, open: seq<bool>): seq<Frame>
    requires open != []
  {
    if fs == [] then []
    else
      var n := |fs| - 1;
      Dispatched(fs[..n], rr, open) + (if TurnOpen(rr, n, open) then [fs[n]] else [])
  }

  /** Frame i is the d-th channel's, whichever of the n are open. */
  ghost predicate IsTurnOf(rr: nat, i: nat, d: nat, n: nat)
    requires d < n
  {
    forall open: seq<bool> :: |open| == n ==> TurnOpen(rr, i, open) == open[d]
  }

  /** The channels take turns: wherever one looks, each of the n has one of n frames in a row. */
  lemma EveryChannelInTurn(rr: nat, from: nat, d: nat, n: nat) returns (i: nat)
    requires d < n
    ensures from <= i < from + n && IsTurnOf(rr, i, d, n)
  {
    var at := (rr + from) % n;
    i := from + (if d >= at then d - at else n + d - at);
    RemainderAt(rr + from, i - from, d, n);
  }

  lemma RemainderAt(a: nat, more: nat, d: nat, n: nat)
    requires d < n && (a % n + more == d || a % n + more == n + d)
    ensures (a + more) % n == d
  {
    var q := a / n;
    assert a == q * n + a % n;
    if a % n + more == d {
      Multiple(q, d, n);
    } else {
      assert a + more == (q + 1) * n + d;
      Multiple(q + 1, d, n);
    }
  }

  lemma Multiple(q: nat, d: nat, n: nat)
    requires d < n
    ensures (q * n + d) % n == d
  {
    var a := q * n + d;
    assert a == a / n * n + a % n;
    SameQuotient(q, d, a / n, a % n, n);
  }

  lemma SameQuotient(q: nat, r: nat, q': nat, r': nat, n: nat)
    requires r < n && r' < n && q * n + r == q' * n + r'
    ensures r == r'
  {
    if q < q' {
      Above(q, q', n);
    } else if q' < q {
      Above(q', q, n);
    }
  }

  lemma Above(p: nat, q: nat, n: nat)
    requires p < q
    ensures p * n + n <= q * n
  {
    assert q * n == p * n + n + (q - p - 1) * n;
  }

  lemma SameTurn(rr: nat, i: nat, open: seq<bool>)
    requires open != []
    ensures TurnOpen(rr + i, 0, open) == TurnOpen(rr, i, open)
  {
  }

  lemma DispatchNext(fs: seq<Frame>, rr: nat, open: seq<bool>, i: nat)
    requires open != [] && i < |fs|
    ensures EncodeAll(Dispatched(fs[..i + 1], rr, open))
            == EncodeAll(Dispatched(fs[..i], rr, open)) + (if TurnOpen(rr, i, open) then [Encoded(fs[i])] else [])
  {
    hide Encoded;
    hide TurnOpen;
    assert fs[..i + 1][..i] == fs[..i];
    var before := Dispatched(fs[..i], rr, open);
    if TurnOpen(rr, i, open) {
      EncodeAllAppend(before, fs[i]);
    } else {
      assert before + [] == before;
    }
  }

  class BTunnelClient {
    var reassemblyBuffer: Table
    var requestIdCounter: nat
    var rrCounter: nat
    /** frames handed to open channels, in order */
    var sent: seq<bytes>

    constructor ()
      ensures reassemblyBuffer == map[] && requestIdCounter == 0 && rrCounter == 0 && sent == []
    {
      reassemblyBuffer := map[];
      requestIdCounter := 0;
      rrCounter := 0;
      sent := [];
    }

    /** `open` lists which of this.dataChannels are open; there is none whose state an empty list could tell. */
    method SendFramed(payload: bytes, open: seq<bool>) returns (threw: bool)
      modifies this`requestIdCounter, this`rrCounter, this`sent
      ensures requestIdCounter == old(requestIdCounter) + 1
      ensures threw <==> open == [] && payload != []
      ensures open == [] ==> sent == old(sent) && rrCounter == old(rrCounter) + (if threw then 1 else 0)
      ensures open != [] ==>
                sent == old(sent) + EncodeAll(Dispatched(JsFrames(requestIdCounter, payload), old(rrCounter), open))
                && rrCounter == old(rrCounter) + |Chunks(payload)|
    {
      hide Chunks;
      hide Encoded;
      hide EncodeAll;
      hide TurnOpen;
      hide JsFrames;
      var totalChunks := ChunkCount(|payload|);
      ChunksCount(payload);
      requestIdCounter := requestIdCounter + 1;
      var requestId := requestIdCounter;
      ghost var fs := JsFrames(requestId, payload);
      JsFramesCount(requestId, payload);
      if open == [] {
        if totalChunks > 0 {
          rrCounter := rrCounter + 1;
          return true;
        }
        return false;
      }
      for i := 0 to totalChunks
        invariant rrCounter == old(rrCounter) + i && requestIdCounter == requestId
        invariant sent == old(sent) + EncodeAll(Dispatched(fs[..i], old(rrCounter), open))
      {
        var frame := JsFrame(requestId, payload, i);
        SendOn(frame, open);
        SameTurn(old(rrCounter), i, open);
        DispatchNext(fs, old(rrCounter), open, i);
      }
      assert fs[..totalChunks] == fs;
      return false;
    }

    method SendOn(frame: Frame, open: seq<bool>)
      requires open != []
      modifies this`rrCounter, this`sent
      ensures rrCounter == old(rrCounter) + 1
      ensures sent == old(sent) + (if TurnOpen(old(rrCounter), 0, open) then [Encoded(frame)] else [])
    {
      var dc := rrCounter % |open|;
      rrCounter := rrCounter + 1;
      if open[dc] {
        var encoded := EncodeFrame(frame);
        sent := sent + [encoded[..]];
      }
    }

    method JsFrame(requestId: nat, payload: bytes, i: nat) returns (frame: Frame)
      requires i < |Chunks(payload)|
      ensures frame == JsFrames(requestId, payload)[i]
    {
      ChunksCount(payload);
      ChunkBounds(payload, i);
      var start := i * MAX_PAYLOAD;
      var end := Min(start + MAX_PAYLOAD, |payload|);
      return Frame(requestId % TWO32, i % TWO32, ChunkCount(|payload|) % TWO32, payload[start..end]);
    }

    method HandleDataChannelMessage(data: bytes) returns (complete: seq<Message>, threw: bool)
      modifies this`reassemblyBuffer
      ensures Handled(reassemblyBuffer, complete, threw) == JsHandle(old(reassemblyBuffer), data)
    {
      complete, threw := [], false;
      if |data| < HEADER_SIZE {
        return;
      }
      var requestId := Uint32(data[0..4]);
      if requestId == 0 {
        return;
      }
      var chunkIndex, totalChunks, payloadLen := Uint32(data[4..8]), Uint32(data[8..12]), Uint32(data[12..16]);
      if HEADER_SIZE + payloadLen > |data| {
        return [], true;
      }
      var payload := data[HEADER_SIZE..HEADER_SIZE + payloadLen];
      if totalChunks == 1 {
        return [Message(requestId, payload)], false;
      }
      complete, threw := Store(Frame(requestId, chunkIndex, totalChunks, payload));
    }

    method Store(f: Frame) returns (complete: seq<Message>, threw: bool)
      requires f.totalChunks != 1
      modifies this`reassemblyBuffer
      ensures Handled(reassemblyBuffer, complete, threw) == JsAccept(old(reassemblyBuffer), f)
    {
      var id := f.requestID;
      if id !in reassemblyBuffer {
        reassemblyBuffer := reassemblyBuffer[id := Buffer(f.totalChunks, map[])];
      }
      var buffer := reassemblyBuffer[id];
      buffer := buffer.(received := buffer.received[f.chunkIndex := f.payload]);
      reassemblyBuffer := reassemblyBuffer[id := buffer];
      if |buffer.received| == buffer.totalChunks {
        var assembled, missing := Assemble(buffer.received, buffer.totalChunks);
        if missing {
          return [], true;
        }
        reassemblyBuffer := reassemblyBuffer - {id};
        assert reassemblyBuffer == old(reassemblyBuffer) - {id};
        return [Message(id, assembled)], false;
      }
      return [], false;
    }

    method Assemble(received: map<uint32, bytes>, totalChunks: uint32) returns (assembled: bytes, missing: bool)
      ensures missing <==> !NoGap(received, totalChunks)
      ensures !missing ==> assembled == Join(received, totalChunks)
    {
      assembled := [];
      for i := 0 to totalChunks
        invariant assembled == Join(received, i) && Range(i) <= received.Keys
      {
        if i !in received {
          assert i in Range(totalChunks);
          return [], true;
        }
        assembled := assembled + received[i];
      }
      return assembled, false;
    }
  }

  lemma EncodeAllAppend(fs: seq<Frame>, f: Frame)
    ensures EncodeAll(fs + [f]) == EncodeAll(fs) + [Encoded(f)]
  {
  }

  // ---- the two senders

  /** Both senders cut a message into the same frames, exactly as long as the chunk count fits 32 bits. */
  lemma SendersAgree(counter: nat, data: bytes)
    ensures JsFrames(counter, data) == Frames(counter % TWO32, data) <==> |Chunks(data)| < TWO32
  {
    hide Chunks;
    var n := |Chunks(data)|;
    var js, go := JsFrames(counter, data), Frames(counter % TWO32, data);
    assert |js| == n && |go| == n % TWO32;
    if n < TWO32 {
      forall i | 0 <= i < n
        ensures js[i] == go[i]
      {
        assert i % TWO32 == i && n % TWO32 == n;
      }
    }
  }

  // ---- the two receivers

  /** The frame fills its buffer's count while some index is missing. */
  ghost predicate Gap(t: Table, f: Frame)
  {
    && f.requestID != 0 && f.totalChunks != 1
    && var buf := if f.requestID in t then t[f.requestID] else Buffer(f.totalChunks, map[]);
       var received := buf.received[f.chunkIndex := f.payload];
       |received| == buf.totalChunks && !NoGap(received, buf.totalChunks)
  }

  ghost predicate Bounded(t: Table)
  {
    forall id :: id in t ==> |t[id].received| < TWO32 - 1
  }

  /** On one frame the two receivers do the same, exactly unless it leaves a gap (Go emits, the browser throws). */
  lemma FramesHandledAlike(t: Table, f: Frame)
    requires f.requestID != 0 && Bounded(t)
    ensures var go, js := Accept(t, f), JsAccept(t, f);
            go == State(js.table, js.emitted) <==> !Gap(t, f)
  {
    if f.totalChunks == 1 {
      assert SetEntry(t, f.requestID, Entry(t, f.requestID)) == t;
    } else {
      ChunksHandledAlike(t, f);
    }
    hide AcceptAt;
    hide NoGap;
  }

  lemma ChunksHandledAlike(t: Table, f: Frame)
    requires f.requestID != 0 && f.totalChunks != 1 && Bounded(t)
    ensures var go, js := Accept(t, f), JsAccept(t, f);
            go == State(js.table, js.emitted) <==> !Gap(t, f)
  {
    hide Join;
    hide NoGap;
    var id := f.requestID;
    var buf := if id in t then t[id] else Buffer(f.totalChunks, map[]);
    OneMore(buf.received, f.chunkIndex, f.payload);
    FitsUnwrapped(|buf.received[f.chunkIndex := f.payload]|);
    hide Bounded;
    assert SetEntry(t, id, None) == t - {id};
  }

  lemma OneMore(m: map<uint32, bytes>, k: uint32, v: bytes)
    ensures |m[k := v]| <= |m| + 1
  {
    assert m[k := v].Keys == m.Keys + {k};
  }

  lemma FitsUnwrapped(n: nat)
    requires n < TWO32
    ensures n % TWO32 == n
  {
  }

  /** On one buffer from the wire likewise; where the length wraps both leave everything as it was. */
  lemma BuffersHandledAlike(t: Table, data: bytes)
    requires Bounded(t) && (DecodeFrame(data).Panic? ==> |data| < TWO32)
    ensures var go, js := Receive(t, [data]).state, JsHandle(t, data);
            go == State(js.table, js.emitted)
            <==> !(DecodeFrame(data).Decoded? && Gap(t, DecodeFrame(data).frame))
    ensures DecodeFrame(data).Panic? && Uint32(data[0..4]) != 0 ==> JsHandle(t, data).threw
  {
    hide Accept;
    hide JsAccept;
    hide Gap;
    assert [data][..0] == [];
    assert Receive(t, []) == Running(State(t, []));
    match DecodeFrame(data)
    case Decoded(f) =>
      assert Receive(t, [data]).state == State(Accept(t, f).table, [] + Accept(t, f).emitted);
      if f.requestID != 0 {
        FramesHandledAlike(t, f);
      } else {
        HeartbeatIgnored(t, f);
      }
    case Panic =>
      assert HEADER_SIZE + Uint32(data[12..16]) > |data|;
    case _ =>
  }

  lemma HeartbeatIgnored(t: Table, f: Frame)
    requires f.requestID == 0
    ensures Accept(t, f) == State(t, []) && !Gap(t, f)
  {
  }

  /** Every buffer is unfinished and holds only indices below its total. */
  ghost predicate Sound(t: Table)
  {
    forall id :: id in t ==>
      && t[id].received != map[] && t[id].received.Keys <= Range(t[id].totalChunks)
      && |t[id].received| < t[id].totalChunks
  }

  /** A chunk index below the total, and the total that the ID's unfinished message announced. */
  ghost predicate Fits(t: Table, f: Frame)
  {
    f.requestID == 0 || f.totalChunks == 1 ||
    (f.chunkIndex < f.totalChunks && (f.requestID in t ==> t[f.requestID].totalChunks == f.totalChunks))
  }

  ghost predicate WellFormed(t: Table, raws: seq<bytes>)
  {
    raws == [] ||
    var n := |raws| - 1;
    var d := DecodeFrame(raws[n]);
    WellFormed(t, raws[..n]) && !d.Panic? && (d.Decoded? ==> Fits(Receive(t, raws[..n]).state.table, d.frame))
  }

  lemma StoreKeepsRange(received: map<uint32, bytes>, f: Frame, n: uint32)
    requires received.Keys <= Range(n) && |received| < n && f.chunkIndex < n
    ensures var r := received[f.chunkIndex := f.payload];
            r.Keys <= Range(n) && |r| <= n && (|r| == n ==> NoGap(r, n))
  {
    var r := received[f.chunkIndex := f.payload];
    FullIffAll(r.Keys, n);
    assert |r| == |r.Keys|;
  }

  lemma SoundStep(t: Table, f: Frame)
    requires Sound(t) && Fits(t, f)
    ensures Sound(Accept(t, f).table) && !Gap(t, f)
  {
    hide Join;
    hide NoGap;
    hide Range;
    var id := f.requestID;
    if id != 0 && f.totalChunks != 1 {
      hide Accept;
      var buf := if id in t then t[id] else Buffer(f.totalChunks, map[]);
      StoreKeepsRange(buf.received, f, f.totalChunks);
      AcceptStored(t, buf.received, f);
      var t' := Accept(t, f).table;
      forall i | i in t'
        ensures t'[i].received != map[] && t'[i].received.Keys <= Range(t'[i].totalChunks)
        ensures |t'[i].received| < t'[i].totalChunks
      {
        assert Entry(t', i) == Some(t'[i]);
        if i != id {
          assert Entry(t', i) == Entry(t, i);
        }
      }
    } else {
      assert SetEntry(t, id, Entry(t, id)) == t;
    }
  }

  lemma SoundIsBounded(t: Table)
    requires Sound(t)
    ensures Bounded(t)
  {
    forall id | id in t
      ensures |t[id].received| < TWO32 - 1
    {
      FullIffAll(t[id].received.Keys, t[id].totalChunks);
      assert |t[id].received| == |t[id].received.Keys|;
    }
  }

  /** On every stream of well-formed frames Go and the browser hold the same buffers and hand on the same messages. */
  lemma {:induction false} ReceiversAgree(raws: seq<bytes>)
    requires WellFormed(map[], raws)
    ensures Receive(map[], raws) == Running(JsReceive(map[], raws)) && Sound(JsReceive(map[], raws).table)
  {
    hide Accept;
    hide JsHandle;
    hide Fits;
    hide Gap;
    if raws != [] {
      var n := |raws| - 1;
      ReceiversAgree(raws[..n]);
      var t := JsReceive(map[], raws[..n]).table;
      SoundIsBounded(t);
      BuffersHandledAlike(t, raws[n]);
      if DecodeFrame(raws[n]).Decoded? {
        SoundStep(t, DecodeFrame(raws[n]).frame);
      }
    }
  }

  // ---- from the browser to the host

  lemma {:induction false} DispatchedFrames(fs: seq<Frame>, rr: nat, open: seq<bool>)
    requires open != []
    ensures var d := Dispatched(fs, rr, open);
            && |d| <= |fs| && (forall f :: f in d ==> f in fs)
            && (|d| == |fs| <==> forall i :: 0 <= i < |fs| ==> TurnOpen(rr, i, open))
            && (Distinct(fs) ==> Distinct(d))
  {
    hide TurnOpen;
    if fs != [] {
      var n := |fs| - 1;
      DispatchedFrames(fs[..n], rr, open);
      assert fs == fs[..n] + [fs[n]];
      assert Distinct(fs) ==> fs[n] !in fs[..n];
    }
  }

  /**
   A message the browser sends under a fresh ID reaches the host, whatever order its frames arrive in,
   exactly when there is something of it, every channel its round-robin turns fall on is open, and the 32 bits of the
   counter do not come out as the heartbeat's 0; otherwise nothing of it comes out.
   */
  lemma SentMessageArrives(counter: nat, data: bytes, rr: nat, open: seq<bool>, arrived: seq<Frame>)
    requires |Chunks(data)| < TWO32 && open != []
    requires multiset(arrived) == multiset(Dispatched(JsFrames(counter, data), rr, open))
    ensures var out := Run(map[], arrived).emitted;
            if data != [] && counter % TWO32 != 0 && forall i :: 0 <= i < |Chunks(data)| ==> TurnOpen(rr, i, open)
            then out == [Message(counter % TWO32, data)]
            else out == []
  {
    hide Run;
    hide TurnOpen;
    hide Chunks;
    hide Dispatched;
    var id := counter % TWO32;
    var fs := JsFrames(counter, data);
    DispatchedIn(fs, rr, open);
    MembersOf(arrived, Dispatched(fs, rr, open));
    if id == 0 || data == [] {
      assert forall k :: 0 <= k < |arrived| ==> arrived[k] in fs && arrived[k].requestID == 0;
      OnlyHeartbeats(arrived);
    } else {
      FreshMessageArrives(counter, data, rr, open, arrived);
    }
    hide JsFrames;
  }

  lemma FreshMessageArrives(counter: nat, data: bytes, rr: nat, open: seq<bool>, arrived: seq<Frame>)
    requires counter % TWO32 != 0 && Sendable(data) && open != []
    requires multiset(arrived) == multiset(Dispatched(JsFrames(counter, data), rr, open))
    ensures var out := Run(map[], arrived).emitted;
            if forall i :: 0 <= i < |Chunks(data)| ==> TurnOpen(rr, i, open)
            then out == [Message(counter % TWO32, data)]
            else out == []
  {
    hide Run;
    hide TurnOpen;
    hide Chunks;
    hide Dispatched;
    var id := counter % TWO32;
    var fs := JsFrames(counter, data);
    var d := Dispatched(fs, rr, open);
    SendersAgree(counter, data);
    FramesOfSendable(id, data);
    assert fs == Split(id, data);
    DispatchedFrames(fs, rr, open);
    SameElements(arrived, d);
    forall k | 0 <= k < |arrived|
      ensures arrived[k].chunkIndex < |Chunks(data)| && arrived[k] == FrameAt(id, data, arrived[k].chunkIndex)
    {
      assert arrived[k] in fs;
    }
    AnyOrderOnce(id, data, arrived);
  }

  lemma {:induction false} DispatchedIn(fs: seq<Frame>, rr: nat, open: seq<bool>)
    requires open != []
    ensures forall f :: f in Dispatched(fs, rr, open) ==> f in fs
  {
    hide TurnOpen;
    if fs != [] {
      DispatchedIn(fs[..|fs| - 1], rr, open);
    }
  }

  lemma MembersOf(a: seq<Frame>, b: seq<Frame>)
    requires multiset(a) == multiset(b)
    ensures forall k :: 0 <= k < |a| ==> a[k] in b
  {
    forall k | 0 <= k < |a|
      ensures a[k] in b
    {
      assert a[k] in multiset(a);
    }
  }

  lemma {:induction false} OnlyHeartbeats(fs: seq<Frame>)
    requires forall k :: 0 <= k < |fs| ==> fs[k].requestID == 0
    ensures Run(map[], fs) == State(map[], [])
  {
    if fs != [] {
      OnlyHeartbeats(fs[..|fs| - 1]);
    }
  }

  lemma SameElements(a: seq<Frame>, b: seq<Frame>)
    requires multiset(a) == multiset(b) && Distinct(b)
    ensures Distinct(a) && |a| == |b| && forall f :: f in a <==> f in b
  {
    assert |multiset(a)| == |a| && |multiset(b)| == |b|;
    forall f
      ensures f in a <==> f in b
    {
      assert f in a <==> f in multiset(a);
    }
    DistinctIsOnce(b);
    OnceIsDistinct(a);
  }

  lemma {:induction false} DistinctIsOnce(s: seq<Frame>)
    requires Distinct(s)
    ensures forall f :: multiset(s)[f] <= 1
  {
    if s != [] {
      var n := |s| - 1;
      DistinctIsOnce(s[..n]);
      assert s == s[..n] + [s[n]];
      assert s[n] !in s[..n];
    }
  }

  lemma {:induction false} OnceIsDistinct(s: seq<Frame>)
    requires forall f :: multiset(s)[f] <= 1
    ensures Distinct(s)
  {
    if s != [] {
      var n := |s| - 1;
      assert s == s[..n] + [s[n]];
      forall f
        ensures multiset(s[..n])[f] <= 1
      {
        assert multiset(s[..n])[f] <= multiset(s)[f];
      }
      OnceIsDistinct(s[..n]);
      assert multiset(s)[s[n]] == multiset(s[..n])[s[n]] + 1;
      assert s[n] !in s[..n];
    }
  }
}
