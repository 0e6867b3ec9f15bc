/**
 What reassembly guarantees under each behaviour of the transport: interleaving across
 request IDs, reordering, loss, and reuse of one ID by many messages.
 */
module Delivery {
  import opened Bytes
  import opened Framing
  import opened Reassembly

  // ---- request IDs do not influence each other

  function OnID(fs: seq<Frame>, id: uint32): seq<Frame>
  {
    if fs == [] then [] else
      var before := OnID(fs[..|fs| - 1], id);
      if fs[|fs| - 1].requestID == id then before + [fs[|fs| - 1]] else before
  }

  function DataFor(ms: seq<Message>, id: uint32): seq<bytes>
  {
    if ms == [] then [] else
      var before := DataFor(ms[..|ms| - 1], id);
      if ms[|ms| - 1].requestID == id then before + [ms[|ms| - 1].data] else before
  }

  lemma DataForAppend(a: seq<Message>, b: seq<Message>, id: uint32)
    ensures DataFor(a + b, id) == DataFor(a, id) + DataFor(b, id)
  {
    if b == [] {
      assert a + b == a;
    } else {
      InitOfAppend(a, b);
      DataForAppend(a, b[..|b| - 1], id);
    }
  }

  lemma DataForOne(id: uint32, data: bytes)
    ensures DataFor([Message(id, data)], id) == [data] && DataFor([], id) == []
  {
    assert [Message(id, data)][..0] == [];
  }

  /** What the frame f, received with the table t, means for the ID id. */
  lemma AcceptFor(t: Table, f: Frame, id: uint32)
    requires id != 0
    ensures var r := Accept(t, f);
            if f.requestID == id
            then Entry(r.table, id) == AcceptAt(Entry(t, id), f).entry && r.emitted == AcceptAt(Entry(t, id), f).emitted
            else Entry(r.table, id) == Entry(t, id) && DataFor(r.emitted, id) == []
  {
  }

  lemma RunLast(t: Table, fs: seq<Frame>, id: uint32)
    requires id != 0 && fs != []
    ensures var r, before, f := Run(t, fs), Run(t, fs[..|fs| - 1]), fs[|fs| - 1];
            if f.requestID == id then
              var s := AcceptAt(Entry(before.table, id), f);
              && Entry(r.table, id) == s.entry
              && DataFor(r.emitted, id) == DataFor(before.emitted, id) + DataFor(s.emitted, id)
            else
              Entry(r.table, id) == Entry(before.table, id) && DataFor(r.emitted, id) == DataFor(before.emitted, id)
  {
    var before := Run(t, fs[..|fs| - 1]);
    AcceptFor(before.table, fs[|fs| - 1], id);
    DataForAppend(before.emitted, Accept(before.table, fs[|fs| - 1]).emitted, id);
  }

  /** Whatever arrives on other IDs, an ID sees the run of its own frames alone. */
  lemma {:induction false} Isolation(t: Table, t': Table, fs: seq<Frame>, id: uint32)
    requires id != 0 && Entry(t, id) == Entry(t', id)
    ensures var r, own := Run(t, fs), Run(t', OnID(fs, id));
            Entry(r.table, id) == Entry(own.table, id) && DataFor(r.emitted, id) == DataFor(own.emitted, id)
  {
    if fs != [] {
      var n := |fs| - 1;
      Isolation(t, t', fs[..n], id);
      RunLast(t, fs, id);
      var own := OnID(fs, id);
      if fs[n].requestID == id {
        assert own[..|own| - 1] == OnID(fs[..n], id);
        RunLast(t', own, id);
      }
    }
  }

  lemma {:induction false} RunAppend(t: Table, a: seq<Frame>, b: seq<Frame>)
    ensures var r := Run(t, a);
            var q := Run(r.table, b);
            Run(t, a + b) == State(q.table, r.emitted + q.emitted)
  {
    hide Accept;
    if b == [] {
      assert a + b == a;
    } else {
      InitOfAppend(a, b);
      RunAppend(t, a, b[..|b| - 1]);
    }
  }

  // ---- one message, its chunks in any order

  function Range(n: nat): (s: set<uint32>)
    requires n <= TWO32
    ensures forall i: uint32 :: i in s <==> 0 <= i < n
  {
    if n == 0 then {} else Range(n - 1) + {n - 1}
  }

  lemma {:induction false} RangeSize(n: nat)
    requires n <= TWO32
    ensures |Range(n)| == n
  {
    if n > 0 {
      RangeSize(n - 1);
    }
  }

  lemma FullIffAll(s: set<uint32>, n: nat)
    requires n <= TWO32 && s <= Range(n)
    ensures |s| <= n && (|s| == n <==> s == Range(n))
  {
    RangeSize(n);
    assert Range(n) == s + (Range(n) - s);
  }

  function ChunkMap(data: bytes, s: set<uint32>): (m: map<uint32, bytes>)
    requires forall i :: i in s ==> i < |Chunks(data)|
    ensures m.Keys == s
  {
    map i | i in s :: Chunks(data)[i]
  }

  /** The buffer of a message of which exactly the chunks in s have arrived. */
  function Partial(data: bytes, s: set<uint32>): Option<Buffer>
    requires |Chunks(data)| < TWO32 && s <= Range(|Chunks(data)|)
  {
    if s == {} then None else Some(Buffer(|Chunks(data)|, ChunkMap(data, s)))
  }

  lemma {:induction false} JoinIsFlatten(data: bytes, n: nat)
    requires n <= |Chunks(data)| < TWO32
    ensures Join(ChunkMap(data, Range(|Chunks(data)|)), n) == Flatten(Chunks(data)[..n])
  {
    if n > 0 {
      JoinIsFlatten(data, n - 1);
      assert Chunks(data)[..n][..n - 1] == Chunks(data)[..n - 1];
    }
  }

  lemma JoinAll(data: bytes)
    requires Sendable(data)
    ensures Join(ChunkMap(data, Range(|Chunks(data)|)), |Chunks(data)|) == data
  {
    JoinIsFlatten(data, |Chunks(data)|);
    assert Chunks(data)[..|Chunks(data)|] == Chunks(data);
    ChunksCoverMessage(data);
  }

  lemma SingleChunk(data: bytes)
    requires Sendable(data) && |Chunks(data)| == 1
    ensures Chunks(data)[0] == data
  {
  }

  lemma StoreChunk(data: bytes, s: set<uint32>, i: uint32)
    requires |Chunks(data)| < TWO32 && s <= Range(|Chunks(data)|) && i < |Chunks(data)|
    ensures ChunkMap(data, s)[i := Chunks(data)[i]] == ChunkMap(data, s + {i})
    ensures |ChunkMap(data, s + {i})| == |s + {i}|
  {
    assert |ChunkMap(data, s + {i}).Keys| == |s + {i}|;
  }

  lemma StoreInBuffer(received: map<uint32, bytes>, f: Frame)
    requires f.totalChunks > 1 && |received[f.chunkIndex := f.payload]| <= f.totalChunks
    ensures var r := received[f.chunkIndex := f.payload];
            var n := f.totalChunks;
            AcceptAt(if received == map[] then None else Some(Buffer(n, received)), f)
            == if |r| == n then Slot(None, [Message(f.requestID, Join(r, n))]) else Slot(Some(Buffer(n, r)), [])
  {
  }

  lemma AcceptOneOf(id: uint32, data: bytes, s: set<uint32>, i: uint32)
    requires Sendable(data) && |Chunks(data)| > 1
    requires s < Range(|Chunks(data)|) && i < |Chunks(data)|
    ensures var n := |Chunks(data)|;
            AcceptAt(Partial(data, s), FrameAt(id, data, i))
            == if |s + {i}| == n
               then Slot(None, [Message(id, Join(ChunkMap(data, s + {i}), n))])
               else Slot(Some(Buffer(n, ChunkMap(data, s + {i}))), [])
  {
    FullIffAll(s + {i}, |Chunks(data)|);
    StoreChunk(data, s, i);
    StoreInBuffer(ChunkMap(data, s), FrameAt(id, data, i));
    assert (ChunkMap(data, s) == map[]) == (s == {}) by {
      assert ChunkMap(data, s).Keys == s;
    }
  }

  /** One more chunk: the message comes out when it was the last one missing, and is kept otherwise. */
  lemma AcceptChunk(id: uint32, data: bytes, s: set<uint32>, i: uint32)
    requires Sendable(data) && s < Range(|Chunks(data)|) && i < |Chunks(data)|
    ensures var n := |Chunks(data)|;
            AcceptAt(Partial(data, s), FrameAt(id, data, i))
            == if s + {i} == Range(n) then Slot(None, [Message(id, data)]) else Slot(Partial(data, s + {i}), [])
  {
    var n := |Chunks(data)|;
    if n == 1 {
      SingleChunk(data);
      RangeSize(1);
      FullIffAll(s, 1);
      assert s == {} && s + {i} == Range(1);
    } else {
      FullIffAll(s + {i}, n);
      AcceptOneOf(id, data, s, i);
      JoinAll(data);
    }
  }

  function Indices(fs: seq<Frame>): (s: set<uint32>)
    ensures forall k :: 0 <= k < |fs| ==> fs[k].chunkIndex in s
  {
    if fs == [] then {} else Indices(fs[..|fs| - 1]) + {fs[|fs| - 1].chunkIndex}
  }

  /** Only frames of the message `data` sent on id, in any order and with any repetitions. */
  ghost predicate FramesOf(id: uint32, data: bytes, fs: seq<Frame>)
  {
    Sendable(data) && forall k :: 0 <= k < |fs| ==>
      fs[k].chunkIndex < |Chunks(data)| && fs[k] == FrameAt(id, data, fs[k].chunkIndex)
  }

  lemma {:induction false} IndicesInRange(id: uint32, data: bytes, fs: seq<Frame>)
    requires FramesOf(id, data, fs)
    ensures Indices(fs) <= Range(|Chunks(data)|)
  {
    if fs != [] {
      IndicesInRange(id, data, fs[..|fs| - 1]);
    }
  }

  /**
   Loss safety: until every chunk has arrived nothing comes out and the buffer is exactly what
   has arrived, so a repeated chunk changes nothing; the arrival that completes the set emits
   the message once, byte for byte, and leaves no buffer behind.
   */
  lemma {:induction false} AnyOrder(id: uint32, data: bytes, fs: seq<Frame>)
    requires id != 0 && Sendable(data) && FramesOf(id, data, fs)
    requires fs != [] ==> Indices(fs[..|fs| - 1]) != Range(|Chunks(data)|)
    ensures Indices(fs) <= Range(|Chunks(data)|)
    ensures var r := Run(map[], fs);
            if Indices(fs) == Range(|Chunks(data)|)
            then Entry(r.table, id) == None && r.emitted == [Message(id, data)]
            else Entry(r.table, id) == Partial(data, Indices(fs)) && r.emitted == []
  {
    IndicesInRange(id, data, fs);
    RangeSize(|Chunks(data)|);
    if fs != [] {
      var before := fs[..|fs| - 1];
      if before != [] {
        IndicesGrow(before);
        IndicesInRange(id, data, before);
      }
      AnyOrder(id, data, before);
      AcceptChunk(id, data, Indices(before), fs[|fs| - 1].chunkIndex);
    }
  }

  lemma IndicesGrow(fs: seq<Frame>)
    requires fs != []
    ensures Indices(fs[..|fs| - 1]) <= Indices(fs)
  {
  }

  ghost predicate Distinct<T>(s: seq<T>)
  {
    forall i, j :: 0 <= i < j < |s| ==> s[i] != s[j]
  }

  lemma {:induction false} DistinctIndices(id: uint32, data: bytes, fs: seq<Frame>)
    requires FramesOf(id, data, fs) && Distinct(fs)
    ensures |Indices(fs)| == |fs|
    ensures forall i :: i in Indices(fs) ==> exists k :: 0 <= k < |fs| && fs[k].chunkIndex == i
  {
    if fs != [] {
      var n := |fs| - 1;
      DistinctIndices(id, data, fs[..n]);
      forall k | 0 <= k < n
        ensures fs[..n][k].chunkIndex != fs[n].chunkIndex
      {
        assert fs[k] != fs[n];
      }
      forall i | i in Indices(fs)
        ensures exists k :: 0 <= k < |fs| && fs[k].chunkIndex == i
      {
        if i in Indices(fs[..n]) {
          var k :| 0 <= k < n && fs[..n][k].chunkIndex == i;
          assert fs[k].chunkIndex == i;
        }
      }
    }
  }

  /** Frames of one message without repetition: it comes out once all have arrived, and not before. */
  lemma AnyOrderOnce(id: uint32, data: bytes, fs: seq<Frame>)
    requires id != 0 && Sendable(data) && FramesOf(id, data, fs) && Distinct(fs)
    ensures |fs| <= |Chunks(data)| && Indices(fs) <= Range(|Chunks(data)|)
    ensures var r := Run(map[], fs);
            if |fs| == |Chunks(data)|
            then Entry(r.table, id) == None && r.emitted == [Message(id, data)]
            else Entry(r.table, id) == Partial(data, Indices(fs)) && r.emitted == []
  {
    var n := |Chunks(data)|;
    DistinctIndices(id, data, fs);
    IndicesInRange(id, data, fs);
    FullIffAll(Indices(fs), n);
    if fs != [] {
      var before := fs[..|fs| - 1];
      DistinctIndices(id, data, before);
      RangeSize(n);
    }
    AnyOrder(id, data, fs);
  }

  // ---- one message per ID: any order, any losses

  /** No frame twice, and every frame belongs to the one message of its ID. */
  ghost predicate Lossy(msgs: map<uint32, bytes>, fs: seq<Frame>)
  {
    && Distinct(fs)
    && forall k :: 0 <= k < |fs| ==>
         var f := fs[k];
         f.requestID in msgs && Sendable(msgs[f.requestID]) && f.chunkIndex < |Chunks(msgs[f.requestID])|
         && f == FrameAt(f.requestID, msgs[f.requestID], f.chunkIndex)
  }

  lemma {:induction false} OnIDContents(fs: seq<Frame>, id: uint32)
    ensures forall f :: f in OnID(fs, id) <==> f in fs && f.requestID == id
    ensures Distinct(fs) ==> Distinct(OnID(fs, id))
  {
    if fs != [] {
      var n := |fs| - 1;
      OnIDContents(fs[..n], id);
      assert fs == fs[..n] + [fs[n]];
    }
  }

  lemma OnIDOfLossy(msgs: map<uint32, bytes>, fs: seq<Frame>, id: uint32)
    requires Lossy(msgs, fs) && (id in msgs ==> Sendable(msgs[id]))
    ensures Distinct(OnID(fs, id))
    ensures if id in msgs then FramesOf(id, msgs[id], OnID(fs, id)) else OnID(fs, id) == []
  {
    OnIDContents(fs, id);
    var own := OnID(fs, id);
    forall k | 0 <= k < |own|
      ensures id in msgs && own[k].chunkIndex < |Chunks(msgs[id])| && own[k] == FrameAt(id, msgs[id], own[k].chunkIndex)
    {
      assert own[k] in own;
    }
    assert own != [] ==> own[0] in own;
  }

  /**
   One message per ID, every frame at most once, in any order and with any subset lost: an ID's
   message comes out exactly once if all its frames have arrived and not at all otherwise, and
   what is kept is, for every unfinished message, the proper non-empty part that has arrived.
   */
  lemma ReorderAndLoss(msgs: map<uint32, bytes>, fs: seq<Frame>, id: uint32)
    requires 0 !in msgs && (forall i :: i in msgs ==> Sendable(msgs[i])) && Lossy(msgs, fs) && id != 0
    ensures var r := Run(map[], fs);
            var own := OnID(fs, id);
            if id !in msgs then
              DataFor(r.emitted, id) == [] && id !in r.table
            else
              var n := |Chunks(msgs[id])|;
              && |own| <= n < TWO32 && Indices(own) <= Range(n)
              && DataFor(r.emitted, id) == (if |own| == n then [msgs[id]] else [])
              && (id in r.table <==> 0 < |own| < n)
              && (0 < |own| < n ==> Entry(r.table, id) == Partial(msgs[id], Indices(own)))
  {
    hide Run;
    hide OnID;
    hide DataFor;
    hide Lossy;
    hide Chunks;
    var own := OnID(fs, id);
    Isolation(map[], map[], fs, id);
    OnIDOfLossy(msgs, fs, id);
    if id in msgs {
      AnyOrderOnce(id, msgs[id], own);
      if own != [] {
        assert own[0].chunkIndex in Indices(own);
      }
      DataForOne(id, msgs[id]);
      NothingFor(id);
    } else {
      NothingReceived(own, id);
    }
  }

  lemma NothingFor(id: uint32)
    ensures DataFor([], id) == []
  {
  }

  lemma NothingReceived(own: seq<Frame>, id: uint32)
    requires own == []
    ensures Entry(Run(map[], own).table, id) == None && DataFor(Run(map[], own).emitted, id) == []
  {
  }

  // ---- many messages on one ID

  function Concat(parts: seq<seq<Frame>>, n: nat): seq<Frame>
    requires n <= |parts|
  {
    if n == 0 then [] else Concat(parts, n - 1) + parts[n - 1]
  }

  ghost predicate WholeMessages(id: uint32, msgs: seq<bytes>, parts: seq<seq<Frame>>, n: nat)
    requires n <= |msgs| && n <= |parts|
  {
    n == 0 || (WholeMessages(id, msgs, parts, n - 1) && WholeMessage(id, msgs[n - 1], parts[n - 1]))
  }

  /** The frames of one message, each once, in some order. */
  ghost predicate WholeMessage(id: uint32, data: bytes, fs: seq<Frame>)
  {
    FramesOf(id, data, fs) && Distinct(fs) && |fs| == |Chunks(data)|
  }

  lemma {:induction false} OnlyOnID(fs: seq<Frame>, id: uint32)
    requires forall k :: 0 <= k < |fs| ==> fs[k].requestID == id
    ensures OnID(fs, id) == fs
  {
    if fs != [] {
      OnlyOnID(fs[..|fs| - 1], id);
    }
  }

  lemma OneMessage(t: Table, id: uint32, data: bytes, fs: seq<Frame>)
    requires id != 0 && Entry(t, id) == None && WholeMessage(id, data, fs)
    ensures DataFor(Run(t, fs).emitted, id) == [data] && Entry(Run(t, fs).table, id) == None
  {
    AnyOrderOnce(id, data, fs);
    OnlyOnID(fs, id);
    Isolation(t, map[], fs, id);
    DataForOne(id, data);
  }

  lemma NextMessage(fs: seq<Frame>, id: uint32, data: bytes, part: seq<Frame>)
    requires id != 0 && Entry(Run(map[], fs).table, id) == None && WholeMessage(id, data, part)
    ensures var before, r := Run(map[], fs), Run(map[], fs + part);
            DataFor(r.emitted, id) == DataFor(before.emitted, id) + [data] && Entry(r.table, id) == None
  {
    var before := Run(map[], fs);
    RunAppend(map[], fs, part);
    OneMessage(before.table, id, data, part);
    DataForAppend(before.emitted, Run(before.table, part).emitted, id);
  }

  /** The messages that come out on an ID and the buffer it leaves. */
  ghost predicate Yields(id: uint32, fs: seq<Frame>, out: seq<bytes>, entry: Option<Buffer>)
  {
    var r := Run(map[], fs);
    DataFor(r.emitted, id) == out && Entry(r.table, id) == entry
  }

  lemma NextYields(id: uint32, fs: seq<Frame>, out: seq<bytes>, data: bytes, part: seq<Frame>)
    requires id != 0 && Yields(id, fs, out, None) && WholeMessage(id, data, part)
    ensures Yields(id, fs + part, out + [data], None)
  {
    NextMessage(fs, id, data, part);
  }

  /**
   An ID may be reused without limit, and chunks of one message may arrive in any order, as long as messages do
   not mix.
   */
  lemma {:induction false} MessageByMessage(id: uint32, msgs: seq<bytes>, parts: seq<seq<Frame>>, n: nat)
    requires id != 0 && n <= |parts| && n <= |msgs| && WholeMessages(id, msgs, parts, n)
    ensures Yields(id, Concat(parts, n), msgs[..n], None)
  {
    if n > 0 {
      assert msgs[..n] == msgs[..n - 1] + [msgs[n - 1]];
      MessageByMessage(id, msgs, parts, n - 1);
      NextYields(id, Concat(parts, n - 1), msgs[..n - 1], msgs[n - 1], parts[n - 1]);
    }
  }

  // ---- per-ID FIFO

  predicate AllSendable(msgs: seq<bytes>)
  {
    forall k :: 0 <= k < |msgs| ==> Sendable(msgs[k])
  }

  /** A position in the stream of frames of msgs: `done` messages are complete, `part` frames of the next are past. */
  datatype Cursor = Cursor(done: nat, part: nat)

  predicate ValidCursor(msgs: seq<bytes>, c: Cursor)
  {
    if c.done < |msgs| then c.part < |Chunks(msgs[c.done])| else c.done == |msgs| && c.part == 0
  }

  function Next(msgs: seq<bytes>, c: Cursor): Cursor
    requires c.done < |msgs|
  {
    if c.part + 1 < |Chunks(msgs[c.done])| then Cursor(c.done, c.part + 1) else Cursor(c.done + 1, 0)
  }

  /** The frames from the cursor on, when msgs are sent one after the other on one ID. */
  function Rest(id: uint32, msgs: seq<bytes>, c: Cursor): seq<Frame>
    requires AllSendable(msgs) && ValidCursor(msgs, c)
    decreases |msgs| - c.done
  {
    if c.done == |msgs| then []
    else Split(id, msgs[c.done])[c.part..] + Rest(id, msgs, AtMessage(msgs, c.done + 1))
  }

  function AtMessage(msgs: seq<bytes>, k: nat): (c: Cursor)
    requires AllSendable(msgs) && k <= |msgs|
    ensures ValidCursor(msgs, c)
  {
    Cursor(k, 0)
  }

  function Start(msgs: seq<bytes>): Cursor
    requires AllSendable(msgs)
  {
    AtMessage(msgs, 0)
  }

  lemma RestHead(id: uint32, msgs: seq<bytes>, c: Cursor)
    requires AllSendable(msgs) && ValidCursor(msgs, c) && c.done < |msgs|
    ensures ValidCursor(msgs, Next(msgs, c))
    ensures var r := Rest(id, msgs, c);
            r != [] && r[0] == FrameAt(id, msgs[c.done], c.part) && r[1..] == Rest(id, msgs, Next(msgs, c))
  {
    hide Chunks;
    TailOfSlice(Split(id, msgs[c.done]), c.part, Rest(id, msgs, AtMessage(msgs, c.done + 1)));
  }

  /** Sending one more message lengthens the stream by its frames. */
  lemma {:induction false} RestSend(id: uint32, msgs: seq<bytes>, c: Cursor, data: bytes)
    requires AllSendable(msgs) && ValidCursor(msgs, c) && Sendable(data)
    ensures AllSendable(msgs + [data]) && ValidCursor(msgs + [data], c)
    ensures Rest(id, msgs + [data], c) == Rest(id, msgs, c) + Split(id, data)
    decreases |msgs| - c.done
  {
    if c.done < |msgs| {
      RestSend(id, msgs, AtMessage(msgs, c.done + 1), data);
    } else {
      assert Rest(id, msgs + [data], AtMessage(msgs + [data], |msgs| + 1)) == [];
    }
  }

  /** The buffer of the ID when the frames up to the cursor have arrived in order. */
  function FifoEntry(msgs: seq<bytes>, c: Cursor): Option<Buffer>
    requires AllSendable(msgs) && ValidCursor(msgs, c)
  {
    if c.done < |msgs| then Partial(msgs[c.done], Range(c.part)) else None
  }

  lemma RangeNext(p: nat, n: nat)
    requires p < n < TWO32
    ensures Range(p) < Range(n) && Range(p) + {p} == Range(p + 1) && (Range(p + 1) == Range(n) <==> p + 1 == n)
  {
    RangeSize(p + 1);
    RangeSize(n);
    assert p in Range(n) && p !in Range(p);
  }

  /** The next frame in order finishes the current message or extends its buffer. */
  lemma FifoStep(id: uint32, msgs: seq<bytes>, c: Cursor)
    requires AllSendable(msgs) && ValidCursor(msgs, c) && c.done < |msgs|
    ensures ValidCursor(msgs, Next(msgs, c))
    ensures AcceptAt(FifoEntry(msgs, c), FrameAt(id, msgs[c.done], c.part))
            == Slot(FifoEntry(msgs, Next(msgs, c)),
                    if Next(msgs, c).done > c.done then [Message(id, msgs[c.done])] else [])
  {
    hide AcceptAt;
    hide Chunks;
    RangeNext(c.part, |Chunks(msgs[c.done])|);
    AcceptChunk(id, msgs[c.done], Range(c.part), c.part);
  }

  /** The cursor after p frames. */
  function Advance(msgs: seq<bytes>, p: nat): Cursor
  {
    if p == 0 then Cursor(0, 0)
    else
      var c := Advance(msgs, p - 1);
      if c.done < |msgs| then Next(msgs, c) else c
  }

  lemma {:induction false} AdvanceIntoRest(id: uint32, msgs: seq<bytes>, p: nat)
    requires AllSendable(msgs) && p <= |Rest(id, msgs, Start(msgs))|
    ensures ValidCursor(msgs, Advance(msgs, p))
    ensures Rest(id, msgs, Advance(msgs, p)) == Rest(id, msgs, Start(msgs))[p..]
  {
    if p > 0 {
      AdvanceIntoRest(id, msgs, p - 1);
      RestHead(id, msgs, Advance(msgs, p - 1));
    }
  }

  lemma OneMore(id: uint32, msgs: seq<bytes>, k: nat, k': nat)
    requires k <= k' <= k + 1 && k' <= |msgs|
    ensures msgs[..k] + DataFor(if k < k' then [Message(id, msgs[k])] else [], id) == msgs[..k']
  {
    if k < k' {
      DataForOne(id, msgs[k]);
    }
  }

  /**
   When every ID's frames arrive in the order they were sent, the messages that come out on an ID are
   at every moment exactly the complete ones among those sent on it, in order, however many share it
   and whatever happens on other IDs.
   */
  lemma {:induction false} FifoPerID(id: uint32, msgs: seq<bytes>, fs: seq<Frame>)
    requires id != 0 && AllSendable(msgs) && OnID(fs, id) <= Rest(id, msgs, Start(msgs))
    ensures var c := Advance(msgs, |OnID(fs, id)|);
            ValidCursor(msgs, c) && Yields(id, fs, msgs[..c.done], FifoEntry(msgs, c))
  {
    hide Accept;
    hide AcceptAt;
    hide Chunks;
    if fs != [] {
      var n := |fs| - 1;
      FifoPerID(id, msgs, fs[..n]);
      RunLast(map[], fs, id);
      if fs[n].requestID == id {
        var p := |OnID(fs[..n], id)|;
        var c := Advance(msgs, p);
        AdvanceIntoRest(id, msgs, p);
        RestHead(id, msgs, c);
        FifoStep(id, msgs, c);
        OneMore(id, msgs, c.done, Next(msgs, c).done);
      }
    }
  }

  /** Once the last frame has arrived every message has come out and nothing is kept. */
  lemma FifoComplete(id: uint32, msgs: seq<bytes>, fs: seq<Frame>)
    requires id != 0 && AllSendable(msgs) && OnID(fs, id) == Rest(id, msgs, Start(msgs))
    ensures Yields(id, fs, msgs, None)
  {
    FifoPerID(id, msgs, fs);
    AdvanceIntoRest(id, msgs, |OnID(fs, id)|);
    var c := Advance(msgs, |OnID(fs, id)|);
    if c.done < |msgs| {
      RestHead(id, msgs, c);
    }
    assert msgs[..|msgs|] == msgs;
  }

  lemma RunFour(a: Frame, b: Frame, c: Frame, d: Frame)
    ensures var s1 := Accept(map[], a);
            var s2 := Accept(s1.table, b);
            var s3 := Accept(s2.table, c);
            var s4 := Accept(s3.table, d);
            Run(map[], [a, b, c, d]) == State(s4.table, s1.emitted + s2.emitted + s3.emitted + s4.emitted)
  {
    var fs := [a, b, c, d];
    assert fs[..3] == [a, b, c] && [a, b, c][..2] == [a, b] && [a, b][..1] == [a] && [a][..0] == [];
    var s1 := Accept(map[], a);
    var s2 := Accept(s1.table, b);
    assert Run(map[], [a]) == State(s1.table, s1.emitted) by {
      assert Run(map[], []) == State(map[], []);
    }
    assert Run(map[], [a, b]) == State(s2.table, s1.emitted + s2.emitted);
    assert Run(map[], [a, b, c])
        == State(Accept(s2.table, c).table, s1.emitted + s2.emitted + Accept(s2.table, c).emitted);
  }

  lemma JoinTwo(received: map<uint32, bytes>)
    requires 0 in received && 1 in received
    ensures Join(received, 2) == received[0] + received[1]
  {
    assert Join(received, 1) == Join(received, 0) + received[0];
  }

  lemma AcceptStored(t: Table, received: map<uint32, bytes>, f: Frame)
    requires f.requestID != 0 && f.totalChunks > 1 && |received[f.chunkIndex := f.payload]| <= f.totalChunks
    requires Entry(t, f.requestID) == if received == map[] then None else Some(Buffer(f.totalChunks, received))
    ensures var r := received[f.chunkIndex := f.payload];
            var n := f.totalChunks;
            var s := Accept(t, f);
            && Entry(s.table, f.requestID) == (if |r| == n then None else Some(Buffer(n, r)))
            && (forall other: uint32 :: other != f.requestID ==> Entry(s.table, other) == Entry(t, other))
            && s.emitted == (if |r| == n then [Message(f.requestID, Join(r, n))] else [])
  {
    StoreInBuffer(received, f);
  }

  /** Frames a0 and b0 with index 0, a1 and b1 with index 1, all of two-frame messages on one ID. */
  lemma Mixed(a0: Frame, b0: Frame, a1: Frame, b1: Frame)
    requires a0.requestID == a1.requestID == b0.requestID == b1.requestID != 0
    requires a0.totalChunks == a1.totalChunks == b0.totalChunks == b1.totalChunks == 2
    requires a0.chunkIndex == b0.chunkIndex == 0 && a1.chunkIndex == b1.chunkIndex == 1
    ensures var r := Run(map[], [a0, b0, a1, b1]);
            && r.emitted == [Message(a0.requestID, b0.payload + a1.payload)]
            && Entry(r.table, a0.requestID) == Some(Buffer(2, map[1 := b1.payload]))
  {
    hide Accept;
    hide Join;
    RunFour(a0, b0, a1, b1);
    var t1 := Accept(map[], a0).table;
    var t2 := Accept(t1, b0).table;
    var t3 := Accept(t2, a1).table;
    AcceptStored(map[], map[], a0);
    AcceptStored(t1, map[0 := a0.payload], b0);
    assert map[0 := a0.payload][0 := b0.payload] == map[0 := b0.payload];
    var both: map<uint32, bytes> := map[0 := b0.payload][1 := a1.payload];
    assert both.Keys == {0, 1} && |both.Keys| == 2;
    AcceptStored(t2, map[0 := b0.payload], a1);
    JoinTwo(both);
    AcceptStored(t3, map[], b1);
  }

  /**
   Order within an ID cannot be given up: swapping the middle two frames of any two two-chunk messages
   on one ID brings out a message with the second one's head and the first one's tail, and nothing else.
   */
  lemma MixedMessages(id: uint32, a: bytes, b: bytes)
    requires id != 0 && |Chunks(a)| == 2 && |Chunks(b)| == 2
    ensures var r := Run(map[], [FrameAt(id, a, 0), FrameAt(id, b, 0), FrameAt(id, a, 1), FrameAt(id, b, 1)]);
            && r.emitted == [Message(id, Chunks(b)[0] + Chunks(a)[1])]
            && Entry(r.table, id) == Some(Buffer(2, map[1 := Chunks(b)[1]]))
  {
    Mixed(FrameAt(id, a, 0), FrameAt(id, b, 0), FrameAt(id, a, 1), FrameAt(id, b, 1));
  }
}
