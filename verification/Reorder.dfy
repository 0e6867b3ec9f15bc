/**
 Frames of an ID that is used again, in any order (internal/webrtc/datachannel.go): what comes out of frames that
 all announce the same number of chunks n, and exactly when that is the messages that were sent.
 */
module Reorder {
  import opened Bytes
  import opened Framing
  import opened Reassembly
  import opened Delivery
  import opened Loss

  /** Frames of one ID that all announce n chunks, more than one; payloads and indices are any. */
  ghost predicate Alike(fs: seq<Frame>, id: uint32, n: uint32)
  {
    id != 0 && n > 1 && forall k :: 0 <= k < |fs| ==> fs[k].requestID == id && fs[k].totalChunks == n
  }

  /** What was last written at every index. */
  function Stored(fs: seq<Frame>): (m: map<uint32, bytes>)
  {
    if fs == [] then map[] else Stored(fs[..|fs| - 1])[fs[|fs| - 1].chunkIndex := fs[|fs| - 1].payload]
  }

  /** Cut into pieces of n frames, every piece has n different indices. */
  ghost predicate Pieces(fs: seq<Frame>, n: nat)
    requires n > 0
  {
    fs == []
    || (|fs| >= n && Pieces(fs[..|fs| - n], n) && |Indices(fs[|fs| - n..])| == n)
  }

  /** One message for each piece. */
  function Joined(fs: seq<Frame>, id: uint32, n: uint32): seq<Message>
    requires n > 0
  {
    if |fs| < n then [] else Joined(fs[..|fs| - n], id, n) + [Message(id, Join(Stored(fs[|fs| - n..]), n))]
  }

  function Received(e: Option<Buffer>): map<uint32, bytes>
  {
    if e.Some? then e.value.received else map[]
  }

  // ---- one frame

  /** The buffer of frames that announce n chunks, between two frames. */
  ghost predicate Open(e: Option<Buffer>, n: uint32)
  {
    |Received(e)| < n && (e.Some? ==> e.value.totalChunks == n)
  }

  lemma MapSize(m: map<uint32, bytes>, k: uint32, v: bytes)
    ensures m[k := v].Keys == m.Keys + {k}
    ensures |m[k := v]| == |m| + if k in m then 0 else 1
  {
    assert m[k := v].Keys == m.Keys + {k};
    assert |m[k := v]| == |m[k := v].Keys| && |m| == |m.Keys|;
  }

  /** A frame is stored, and the n-th different index brings out what there is. */
  lemma OneFrame(e: Option<Buffer>, f: Frame, n: uint32)
    requires Open(e, n) && f.totalChunks == n > 1
    ensures var r := Received(e)[f.chunkIndex := f.payload];
            AcceptAt(e, f) == if |r| == n then Slot(None, [Message(f.requestID, Join(r, n))])
                              else Slot(Some(Buffer(n, r)), [])
  {
    hide Join;
    var r := Received(e)[f.chunkIndex := f.payload];
    MapSize(Received(e), f.chunkIndex, f.payload);
    if e.Some? {
      StoredInto(n, e.value.received, f, r);
    } else {
      StoredInto(n, map[], f, r);
      assert AcceptAt(e, f) == AcceptAt(Some(Buffer(n, map[])), f);
    }
  }

  // ---- counting: a message costs at least n frames

  /** The frames so far are at least n for each message and one for each index in the buffer. */
  ghost predicate Paid(t: Table, fs: seq<Frame>, id: uint32, n: uint32)
  {
    var r := Run(t, fs);
    Open(Entry(r.table, id), n) && n * |r.emitted| + |Received(Entry(r.table, id))| <= |fs|
  }

  /** No frame has been spent on an index that was already there. */
  ghost predicate Exact(t: Table, fs: seq<Frame>, id: uint32, n: uint32)
  {
    var r := Run(t, fs);
    n * |r.emitted| + |Received(Entry(r.table, id))| == |fs|
  }

  /** What has been paid for k messages and `had` indices, when one more frame comes. */
  lemma Tally(n: nat, k: nat, had: nat, isNew: bool)
    requires had < n
    ensures var now := had + if isNew then 1 else 0;
            (if now == n then n * (k + 1) else n * k + now) == n * k + now
  {
    assert n * (k + 1) == n * k + n;
  }

  /** The state after one more frame. */
  lemma After(t: Table, fs: seq<Frame>, f: Frame, n: uint32)
    requires f.requestID != 0 && f.totalChunks == n > 1 && Open(Entry(Run(t, fs).table, f.requestID), n)
    ensures var before, r := Run(t, fs), Run(t, fs + [f]);
            var had, e := Received(Entry(before.table, f.requestID)), Entry(r.table, f.requestID);
            var now := |had| + if f.chunkIndex in had then 0 else 1;
            && Open(e, n) && |r.emitted| == |before.emitted| + (if now == n then 1 else 0)
            && Received(e) == (if now == n then map[] else had[f.chunkIndex := f.payload])
            && |Received(e)| == (if now == n then 0 else now)
  {
    hide Run;
    hide AcceptAt;
    hide Join;
    var e := Entry(Run(t, fs).table, f.requestID);
    OneMoreFrame(t, fs, f);
    OneFrame(e, f, n);
    MapSize(Received(e), f.chunkIndex, f.payload);
  }

  /** What one more frame does to the count. */
  lemma Cost(t: Table, fs: seq<Frame>, f: Frame, n: uint32)
    requires f.requestID != 0 && f.totalChunks == n > 1
    requires Paid(t, fs, f.requestID, n)
    ensures Paid(t, fs + [f], f.requestID, n)
    ensures Exact(t, fs + [f], f.requestID, n)
            <==> Exact(t, fs, f.requestID, n) && f.chunkIndex !in Received(Entry(Run(t, fs).table, f.requestID))
  {
    hide Run;
    hide Received;
    var had := Received(Entry(Run(t, fs).table, f.requestID));
    After(t, fs, f, n);
    Tally(n, |Run(t, fs).emitted|, |had|, f.chunkIndex !in had);
  }

  lemma {:induction false} AllPaid(t: Table, fs: seq<Frame>, id: uint32, n: uint32)
    requires Alike(fs, id, n) && Entry(t, id) == None
    ensures Paid(t, fs, id, n)
  {
    if fs == [] {
      assert n * 0 == 0;
    } else {
      var init, f := fs[..|fs| - 1], fs[|fs| - 1];
      assert fs == init + [f];
      AllPaid(t, init, id, n);
      Cost(t, init, f, n);
      hide Paid;
    }
  }

  // ---- exact means piece by piece

  /** `had` are the indices of the frames since the last whole piece. */
  ghost predicate Pieced(fs: seq<Frame>, had: set<uint32>, n: nat)
    requires n > 0
  {
    |had| <= |fs| && Pieces(fs[..|fs| - |had|], n) && Indices(fs[|fs| - |had|..]) == had
  }

  lemma IndicesSnoc(fs: seq<Frame>, f: Frame)
    ensures Indices(fs + [f]) == Indices(fs) + {f.chunkIndex}
  {
    assert (fs + [f])[..|fs|] == fs;
  }

  lemma WholePiece(fs: seq<Frame>, piece: seq<Frame>, n: nat)
    requires n > 0 && Pieces(fs, n) && |piece| == n && |Indices(piece)| == n
    ensures Pieces(fs + piece, n)
  {
    assert (fs + piece)[..|fs + piece| - n] == fs && (fs + piece)[|fs + piece| - n..] == piece;
  }

  lemma PiecedNext(fs: seq<Frame>, f: Frame, had: set<uint32>, n: nat)
    requires 0 < n && Pieced(fs, had, n) && |had| < n && f.chunkIndex !in had
    ensures Pieced(fs + [f], if |had| + 1 == n then {} else had + {f.chunkIndex}, n)
  {
    hide Pieces;
    hide Indices;
    var cut := |fs| - |had|;
    var all := fs + [f];
    IndicesSnoc(fs[cut..], f);
    assert all[..cut] == fs[..cut] && all[cut..] == fs[cut..] + [f];
    if |had| + 1 == n {
      WholePiece(fs[..cut], fs[cut..] + [f], n);
      assert all == fs[..cut] + (fs[cut..] + [f]);
      assert all[..|all|] == all && all[|all|..] == [];
      NoIndices();
    }
  }

  lemma NoIndices()
    ensures Indices([]) == {}
  {
  }

  lemma NextInPieces(t: Table, fs: seq<Frame>, f: Frame, n: uint32)
    requires f.requestID != 0 && f.totalChunks == n > 1 && Open(Entry(Run(t, fs).table, f.requestID), n)
    requires Pieced(fs, Received(Entry(Run(t, fs).table, f.requestID)).Keys, n)
    requires f.chunkIndex !in Received(Entry(Run(t, fs).table, f.requestID))
    ensures Pieced(fs + [f], Received(Entry(Run(t, fs + [f]).table, f.requestID)).Keys, n)
  {
    hide Run;
    hide Received;
    hide Pieced;
    var had := Received(Entry(Run(t, fs).table, f.requestID));
    After(t, fs, f, n);
    MapSize(had, f.chunkIndex, f.payload);
    assert |had| == |had.Keys|;
    PiecedNext(fs, f, had.Keys, n);
  }

  lemma {:induction false} ExactInPieces(t: Table, fs: seq<Frame>, id: uint32, n: uint32)
    requires Alike(fs, id, n) && Entry(t, id) == None && Exact(t, fs, id, n)
    ensures Pieced(fs, Received(Entry(Run(t, fs).table, id)).Keys, n)
  {
    if fs == [] {
      assert Run(t, fs) == State(t, []);
    } else {
      var init, f := fs[..|fs| - 1], fs[|fs| - 1];
      assert fs == init + [f];
      AllPaid(t, init, id, n);
      Cost(t, init, f, n);
      hide Exact;
      ExactInPieces(t, init, id, n);
      NextInPieces(t, init, f, n);
      hide Pieced;
      hide Run;
    }
  }

  // ---- piece by piece is exact

  /** Frames with different indices, fewer than n, on an empty buffer. */
  lemma {:induction false} StoredUp(t: Table, fs: seq<Frame>, id: uint32, n: uint32)
    requires Alike(fs, id, n) && Entry(t, id) == None && |Indices(fs)| == |fs| < n
    ensures Run(t, fs).emitted == [] && Open(Entry(Run(t, fs).table, id), n)
    ensures Received(Entry(Run(t, fs).table, id)) == Stored(fs)
  {
    hide Indices;
    if fs == [] {
      NoFrames(t, fs);
    } else {
      hide Run;
      hide Stored;
      var init, f := fs[..|fs| - 1], fs[|fs| - 1];
      assert fs == init + [f];
      AllNew(init, f);
      StoredUp(t, init, id, n);
      StoredKeys(init);
      StoredSnoc(init, f);
      After(t, init, f, n);
      hide Received;
      hide Open;
    }
  }

  /** A frame of n with different indices has a new one. */
  lemma AllNew(fs: seq<Frame>, f: Frame)
    requires |Indices(fs + [f])| == |fs| + 1
    ensures |Indices(fs)| == |fs| && f.chunkIndex !in Indices(fs)
  {
    IndicesSnoc(fs, f);
    FewIndices(fs);
    assert f.chunkIndex in Indices(fs) ==> Indices(fs) + {f.chunkIndex} == Indices(fs);
  }

  lemma {:induction false} FewIndices(fs: seq<Frame>)
    ensures |Indices(fs)| <= |fs|
  {
    if fs != [] {
      FewIndices(fs[..|fs| - 1]);
    }
  }

  lemma {:induction false} StoredKeys(fs: seq<Frame>)
    ensures Stored(fs).Keys == Indices(fs) && |Stored(fs)| == |Indices(fs)|
  {
    if fs != [] {
      StoredKeys(fs[..|fs| - 1]);
    }
    assert |Stored(fs)| == |Stored(fs).Keys|;
  }

  lemma StoredSnoc(fs: seq<Frame>, f: Frame)
    ensures Stored(fs + [f]) == Stored(fs)[f.chunkIndex := f.payload]
  {
    assert (fs + [f])[..|fs|] == fs;
  }

  /** A whole piece brings out what was stored, and empties the buffer. */
  lemma OnePiece(t: Table, fs: seq<Frame>, id: uint32, n: uint32)
    requires Alike(fs, id, n) && Entry(t, id) == None && |fs| == n && |Indices(fs)| == n
    ensures Run(t, fs).emitted == [Message(id, Join(Stored(fs), n))] && Entry(Run(t, fs).table, id) == None
  {
    hide AcceptAt;
    hide Run;
    hide Join;
    var init, f := fs[..n - 1], fs[n - 1];
    assert fs == init + [f];
    AllNew(init, f);
    StoredUp(t, init, id, n);
    StoredKeys(init);
    StoredSnoc(init, f);
    MapSize(Stored(init), f.chunkIndex, f.payload);
    OneMoreFrame(t, init, f);
    OneFrame(Entry(Run(t, init).table, id), f, n);
  }

  lemma NextPiece(t: Table, fs: seq<Frame>, piece: seq<Frame>, id: uint32, n: uint32)
    requires Alike(piece, id, n) && |piece| == n && |Indices(piece)| == n && Entry(Run(t, fs).table, id) == None
    ensures var r := Run(t, fs + piece);
            && r.emitted == Run(t, fs).emitted + [Message(id, Join(Stored(piece), n))]
            && Entry(r.table, id) == None
  {
    hide Join;
    hide Indices;
    RunAppend(t, fs, piece);
    hide Run;
    OnePiece(Run(t, fs).table, piece, id, n);
    hide Stored;
  }

  lemma LastPiece(fs: seq<Frame>, id: uint32, n: uint32)
    requires Alike(fs, id, n) && Pieces(fs, n) && fs != []
    ensures |fs| >= n
    ensures var head, piece := fs[..|fs| - n], fs[|fs| - n..];
            && fs == head + piece && Alike(head, id, n) && Alike(piece, id, n)
            && Pieces(head, n) && |piece| == n && |Indices(piece)| == n
            && Joined(fs, id, n) == Joined(head, id, n) + [Message(id, Join(Stored(piece), n))]
  {
    hide Join;
    hide Indices;
    hide Stored;
  }

  lemma {:induction false} PiecesComeOut(t: Table, fs: seq<Frame>, id: uint32, n: uint32)
    requires Alike(fs, id, n) && Entry(t, id) == None && Pieces(fs, n)
    ensures Run(t, fs).emitted == Joined(fs, id, n) && Entry(Run(t, fs).table, id) == None
  {
    hide Join;
    hide Indices;
    hide Stored;
    assert n > 1;
    hide Alike;
    hide Pieces;
    if fs == [] {
      NothingIn(t, fs, id, n);
    } else {
      hide Run;
      hide Joined;
      LastPiece(fs, id, n);
      var head, piece := fs[..|fs| - n], fs[|fs| - n..];
      PiecesComeOut(t, head, id, n);
      NextPiece(t, head, piece, id, n);
    }
  }

  lemma NothingIn(t: Table, fs: seq<Frame>, id: uint32, n: uint32)
    requires fs == [] && n > 0
    ensures Run(t, fs) == State(t, []) && Joined(fs, id, n) == []
  {
  }

  lemma {:induction false} PiecesCounted(fs: seq<Frame>, id: uint32, n: uint32)
    requires n > 0 && Pieces(fs, n)
    ensures n * |Joined(fs, id, n)| == |fs|
  {
    hide Join;
    hide Indices;
    hide Stored;
    if fs == [] {
      assert n * 0 == 0;
    } else {
      PiecesCounted(fs[..|fs| - n], id, n);
      OneMorePiece(n, |Joined(fs[..|fs| - n], id, n)|);
      hide Pieces;
    }
  }

  lemma OneMorePiece(n: nat, k: nat)
    ensures n * (k + 1) == n * k + n
  {
  }

  lemma MessagesAreFew(t: Table, fs: seq<Frame>, id: uint32, n: uint32)
    requires Alike(fs, id, n) && Entry(t, id) == None
    ensures n * |Run(t, fs).emitted| <= |fs|
    ensures n * |Run(t, fs).emitted| == |fs| ==> Pieces(fs, n)
  {
    hide Run;
    hide Open;
    hide Indices;
    hide Pieces;
    AllPaid(t, fs, id, n);
    if n * |Run(t, fs).emitted| == |fs| {
      ExactInPieces(t, fs, id, n);
      assert fs[..|fs|] == fs;
    }
  }

  /**
   Frames that all announce n chunks bring out at most one message for every n of them. They do bring out that
   many exactly if, cut into pieces of n, every piece has n different indices; then each piece comes out as what
   was stored of it, and nothing is left.
   */
  lemma OnePerPiece(t: Table, fs: seq<Frame>, id: uint32, n: uint32)
    requires Alike(fs, id, n) && Entry(t, id) == None
    ensures var r := Run(t, fs);
            && n * |r.emitted| <= |fs|
            && (n * |r.emitted| == |fs| <==> Pieces(fs, n))
            && (Pieces(fs, n) ==> r.emitted == Joined(fs, id, n) && Entry(r.table, id) == None)
  {
    hide Joined;
    hide Pieces;
    hide Run;
    MessagesAreFew(t, fs, id, n);
    if Pieces(fs, n) {
      PiecesComeOut(t, fs, id, n);
      PiecesCounted(fs, id, n);
    }
  }

  // ---- exactly when what comes out is what was sent

  function Messages(id: uint32, msgs: seq<bytes>): seq<Message>
  {
    seq(|msgs|, i requires 0 <= i < |msgs| => Message(id, msgs[i]))
  }

  /** A frame as a sender cuts it: only the last chunk of n may be short. */
  ghost predicate WellCut(fs: seq<Frame>, n: nat)
  {
    forall k :: 0 <= k < |fs| ==>
      fs[k].chunkIndex < n && (fs[k].chunkIndex < n - 1 ==> |fs[k].payload| == MAX_PAYLOAD)
  }

  /** Messages of n chunks, more than one. */
  ghost predicate OfLength(msgs: seq<bytes>, n: uint32)
  {
    n > 1 && forall k :: 0 <= k < |msgs| ==> |Chunks(msgs[k])| == n
  }

  /** The i-th n frames are those of the i-th message, each once, in some order. */
  ghost predicate InBlocks(id: uint32, fs: seq<Frame>, msgs: seq<bytes>, n: nat)
    decreases |msgs|
  {
    if msgs == [] then fs == []
    else
      && |fs| >= n
      && InBlocks(id, fs[..|fs| - n], msgs[..|msgs| - 1], n)
      && WholeMessage(id, msgs[|msgs| - 1], fs[|fs| - n..])
  }

  lemma {:induction false} StoredOf(id: uint32, data: bytes, fs: seq<Frame>)
    requires FramesOf(id, data, fs)
    ensures (forall i :: i in Indices(fs) ==> i < |Chunks(data)|) && Stored(fs) == ChunkMap(data, Indices(fs))
  {
    hide Chunks;
    if fs != [] {
      StoredOf(id, data, fs[..|fs| - 1]);
    }
  }

  /** The frames of a message, in any order, put together are the message. */
  lemma WholeIsPiece(id: uint32, data: bytes, piece: seq<Frame>)
    requires WholeMessage(id, data, piece)
    ensures |Indices(piece)| == |Chunks(data)| && Join(Stored(piece), |Chunks(data)|) == data
  {
    hide Chunks;
    hide Join;
    hide Stored;
    DistinctIndices(id, data, piece);
    IndicesInRange(id, data, piece);
    FullIffAll(Indices(piece), |Chunks(data)|);
    StoredOf(id, data, piece);
    JoinAll(data);
  }

  lemma {:induction false} StoredAt(fs: seq<Frame>, k: nat)
    requires |Indices(fs)| == |fs| && k < |fs|
    ensures fs[k].chunkIndex in Stored(fs) && Stored(fs)[fs[k].chunkIndex] == fs[k].payload
    ensures forall j :: 0 <= j < k ==> fs[j].chunkIndex != fs[k].chunkIndex
  {
    var init, f := fs[..|fs| - 1], fs[|fs| - 1];
    assert fs == init + [f];
    AllNew(init, f);
    if k < |init| {
      StoredAt(init, k);
      StoredKeys(init);
      assert init[k].chunkIndex in Indices(init);
    } else {
      assert forall j :: 0 <= j < k ==> fs[j] == init[j] && init[j].chunkIndex in Indices(init);
    }
  }

  lemma {:induction false} SameLength(x: map<uint32, bytes>, y: map<uint32, bytes>, n: uint32)
    requires forall i: uint32 :: i < n ==> i in x && i in y && |x[i]| == |y[i]|
    ensures |Join(x, n)| == |Join(y, n)|
  {
    if n > 0 {
      SameLength(x, y, n - 1);
    }
  }

  /** Chunks of the same lengths, but for the last, that make up the same message are the same. */
  lemma {:induction false} JoinIsInjective(x: map<uint32, bytes>, y: map<uint32, bytes>, n: uint32)
    requires forall i: uint32 :: i < n ==> i in x && i in y
    requires forall i: uint32 :: i < n - 1 ==> |x[i]| == |y[i]|
    requires Join(x, n) == Join(y, n)
    ensures forall i: uint32 :: i < n ==> x[i] == y[i]
  {
    if n > 0 {
      var m := n - 1;
      SameLength(x, y, m);
      SplitEqual(Join(x, m), x[m], Join(y, m), y[m]);
      JoinIsInjective(x, y, m);
    }
  }

  lemma SplitEqual(a: bytes, b: bytes, c: bytes, d: bytes)
    requires |a| == |c| && a + b == c + d
    ensures a == c && b == d
  {
    assert a == (a + b)[..|a|] && c == (c + d)[..|a|];
    assert b == (a + b)[|a|..] && d == (c + d)[|a|..];
  }

  /** What is stored of a piece that makes up a message are the message's chunks. */
  lemma PieceChunks(data: bytes, piece: seq<Frame>, n: uint32)
    requires n > 1 && WellCut(piece, n) && |Indices(piece)| == n
    requires |Chunks(data)| == n && Join(Stored(piece), n) == data
    ensures Stored(piece) == ChunkMap(data, Range(n))
  {
    hide Join;
    hide WellCut;
    PieceIsFull(piece, n);
    PieceSizes(piece, n);
    hide Stored;
    hide Indices;
    JoinAll(data);
    JoinIsInjective(Stored(piece), ChunkMap(data, Range(n)), n);
    hide Chunks;
  }

  /** A piece that makes up a message consists of the message's frames. */
  lemma PieceIsWhole(id: uint32, data: bytes, piece: seq<Frame>, n: uint32)
    requires Alike(piece, id, n) && WellCut(piece, n) && |piece| == n && |Indices(piece)| == n
    requires |Chunks(data)| == n && Join(Stored(piece), n) == data
    ensures WholeMessage(id, data, piece)
  {
    hide Join;
    hide Chunks;
    hide Stored;
    hide Indices;
    hide Range;
    PieceChunks(data, piece, n);
    forall k | 0 <= k < |piece|
      ensures piece[k] == FrameAt(id, data, piece[k].chunkIndex)
      ensures forall j :: 0 <= j < k ==> piece[j] != piece[k]
    {
      StoredAt(piece, k);
    }
  }

  lemma PieceIsFull(piece: seq<Frame>, n: uint32)
    requires WellCut(piece, n) && |Indices(piece)| == n
    ensures Indices(piece) == Range(n) == Stored(piece).Keys
  {
    IndicesBelow(piece, n);
    FullIffAll(Indices(piece), n);
    StoredKeys(piece);
  }

  lemma {:induction false} IndicesBelow(fs: seq<Frame>, n: uint32)
    requires WellCut(fs, n)
    ensures Indices(fs) <= Range(n)
  {
    if fs != [] {
      IndicesBelow(fs[..|fs| - 1], n);
    }
  }

  lemma {:induction false} PieceSizes(fs: seq<Frame>, n: uint32)
    requires WellCut(fs, n)
    ensures forall i :: i in Stored(fs) && i < n - 1 ==> |Stored(fs)[i]| == MAX_PAYLOAD
  {
    if fs != [] {
      PieceSizes(fs[..|fs| - 1], n);
    }
  }

  lemma BlocksStep(id: uint32, fs: seq<Frame>, msgs: seq<bytes>, n: uint32)
    requires OfLength(msgs, n) && msgs != [] && |fs| >= n
    ensures var head, rest := fs[..|fs| - n], msgs[..|msgs| - 1];
            Messages(id, msgs) == Messages(id, rest) + [Message(id, msgs[|msgs| - 1])] && OfLength(rest, n)
  {
    hide Chunks;
  }

  lemma {:induction false} BlocksArePieces(id: uint32, fs: seq<Frame>, msgs: seq<bytes>, n: uint32)
    requires OfLength(msgs, n) && InBlocks(id, fs, msgs, n)
    ensures Pieces(fs, n) && Joined(fs, id, n) == Messages(id, msgs)
    decreases |msgs|
  {
    hide Chunks;
    hide Join;
    hide Stored;
    hide Indices;
    hide WholeMessage;
    if msgs != [] {
      var head, piece, rest := fs[..|fs| - n], fs[|fs| - n..], msgs[..|msgs| - 1];
      BlocksStep(id, fs, msgs, n);
      BlocksArePieces(id, head, rest, n);
      WholeIsPiece(id, msgs[|msgs| - 1], piece);
      hide Messages;
    }
  }

  lemma LastBlock(id: uint32, fs: seq<Frame>, msgs: seq<bytes>, n: uint32)
    requires OfLength(msgs, n) && Alike(fs, id, n) && WellCut(fs, n) && fs != []
    requires Pieces(fs, n) && Joined(fs, id, n) == Messages(id, msgs)
    ensures |fs| >= n && msgs != []
    ensures var head, rest := fs[..|fs| - n], msgs[..|msgs| - 1];
            && OfLength(rest, n) && Alike(head, id, n) && WellCut(head, n)
            && Pieces(head, n) && Joined(head, id, n) == Messages(id, rest)
            && WholeMessage(id, msgs[|msgs| - 1], fs[|fs| - n..])
  {
    hide Chunks;
    hide Join;
    hide Stored;
    hide Indices;
    hide WholeMessage;
    hide Pieces;
    hide Joined;
    LastPiece(fs, id, n);
    var head, piece := fs[..|fs| - n], fs[|fs| - n..];
    assert msgs != [];
    BlocksStep(id, fs, msgs, n);
    hide Messages;
    SameEnd(Joined(head, id, n), Message(id, Join(Stored(piece), n)), Messages(id, msgs[..|msgs| - 1]),
            Message(id, msgs[|msgs| - 1]));
    PieceIsWhole(id, msgs[|msgs| - 1], piece, n);
  }

  lemma {:induction false} PiecesAreBlocks(id: uint32, fs: seq<Frame>, msgs: seq<bytes>, n: uint32)
    requires OfLength(msgs, n) && Alike(fs, id, n) && WellCut(fs, n)
    requires Pieces(fs, n) && Joined(fs, id, n) == Messages(id, msgs)
    ensures InBlocks(id, fs, msgs, n)
    decreases |msgs|
  {
    if fs == [] {
      assert n > 1;
      hide OfLength;
    } else {
      LastBlock(id, fs, msgs, n);
      hide OfLength;
      hide Alike;
      hide WellCut;
      hide Pieces;
      hide Joined;
      hide Messages;
      hide WholeMessage;
      PiecesAreBlocks(id, fs[..|fs| - n], msgs[..|msgs| - 1], n);
    }
  }

  lemma SameEnd(a: seq<Message>, x: Message, b: seq<Message>, y: Message)
    requires a + [x] == b + [y]
    ensures a == b && x == y
  {
    assert |a| == |b|;
    assert a == (a + [x])[..|a|] && b == (b + [y])[..|b|];
    assert x == (a + [x])[|a|] && y == (b + [y])[|b|];
  }

  /**
   As many frames as k messages of n > 1 chunks have, on one ID, in any order, and however many of them come from which
   message: the k messages come out, as they are and in order, exactly if the first n frames are the frames
   of the first message, the next n those of the second, and so on, each n among themselves in any order. Then nothing
   is left over.
   */
  lemma ExactlyInBlocks(t: Table, id: uint32, fs: seq<Frame>, msgs: seq<bytes>, n: uint32)
    requires Alike(fs, id, n) && WellCut(fs, n) && OfLength(msgs, n) && |fs| == n * |msgs| && Entry(t, id) == None
    ensures Run(t, fs).emitted == Messages(id, msgs) <==> InBlocks(id, fs, msgs, n)
    ensures InBlocks(id, fs, msgs, n) ==> Entry(Run(t, fs).table, id) == None
  {
    OnePerPiece(t, fs, id, n);
    hide Run;
    hide Alike;
    hide WellCut;
    hide OfLength;
    hide Joined;
    hide Pieces;
    if InBlocks(id, fs, msgs, n) {
      BlocksArePieces(id, fs, msgs, n);
    } else if Run(t, fs).emitted == Messages(id, msgs) {
      PiecesAreBlocks(id, fs, msgs, n);
    }
    hide InBlocks;
  }

  // ---- every order in which all the frames can arrive

  /** The frames of messages of n chunks, as they are sent. */
  lemma {:induction false} SentFrames(id: uint32, msgs: seq<bytes>, n: uint32)
    requires id != 0 && OfLength(msgs, n) && AllSendable(msgs)
    ensures var sent := Rest(id, msgs, Start(msgs));
            Alike(sent, id, n) && WellCut(sent, n) && |sent| == n * |msgs|
  {
    hide Chunks;
    if msgs == [] {
      assert n * 0 == 0;
    } else {
      var init, data := msgs[..|msgs| - 1], msgs[|msgs| - 1];
      assert msgs == init + [data];
      SentFrames(id, init, n);
      RestSend(id, init, Start(init), data);
      SplitIsCut(id, data, n);
      hide Rest;
      hide Split;
      OneMorePiece(n, |init|);
    }
  }

  lemma SplitIsCut(id: uint32, data: bytes, n: uint32)
    requires id != 0 && n > 1 && Sendable(data) && |Chunks(data)| == n
    ensures Alike(Split(id, data), id, n) && WellCut(Split(id, data), n) && |Split(id, data)| == n
  {
    hide Chunks;
  }

  lemma SameFrames(a: seq<Frame>, b: seq<Frame>)
    requires multiset(a) == multiset(b)
    ensures |a| == |b| && forall k :: 0 <= k < |a| ==> a[k] in b
  {
    assert |multiset(a)| == |a| && |multiset(b)| == |b|;
    forall k | 0 <= k < |a|
      ensures a[k] in b
    {
      assert a[k] in multiset(a);
    }
  }

  /**
   Messages of n > 1 chunks sent on one ID, and all their frames arriving in any order whatever: the messages
   come out, as they were sent and in that order, exactly if their frames arrive message by message.
   */
  lemma AnyArrival(id: uint32, msgs: seq<bytes>, n: uint32, arrived: seq<Frame>)
    requires id != 0 && OfLength(msgs, n) && AllSendable(msgs)
    requires multiset(arrived) == multiset(Rest(id, msgs, Start(msgs)))
    ensures Run(map[], arrived).emitted == Messages(id, msgs) <==> InBlocks(id, arrived, msgs, n)
  {
    var sent := Rest(id, msgs, Start(msgs));
    SentFrames(id, msgs, n);
    SameFrames(arrived, sent);
    hide Rest;
    assert Alike(arrived, id, n) && WellCut(arrived, n);
    hide OfLength;
    hide Alike;
    hide WellCut;
    ExactlyInBlocks(map[], id, arrived, msgs, n);
    hide Run;
    hide InBlocks;
  }

  // ---- two messages

  /** Two messages of n chunks that have no chunk in common at the same place. */
  ghost predicate Differ(a: bytes, b: bytes)
  {
    |Chunks(a)| == |Chunks(b)| && forall i :: 0 <= i < |Chunks(a)| ==> Chunks(a)[i] != Chunks(b)[i]
  }

  /** Sequences of the same frames, each once in one of them, are each once in the other. */
  lemma OnceEach(part: seq<Frame>, whole: seq<Frame>)
    requires Distinct(whole) && multiset(part) <= multiset(whole)
    ensures Distinct(part)
  {
    forall i, j | 0 <= i < j < |part|
      ensures part[i] != part[j]
    {
      AtMostOnce(whole, part[i]);
      assert multiset(part)[part[i]] <= multiset(whole)[part[i]];
      if part[i] == part[j] {
        Twice(part, i, j);
        assert false;
      }
    }
  }

  lemma Twice(s: seq<Frame>, i: nat, j: nat)
    requires i < j < |s| && s[i] == s[j]
    ensures multiset(s)[s[i]] >= 2
  {
    assert s == s[..i + 1] + s[i + 1..];
    assert s[i] in s[..i + 1] && s[j] == s[i + 1..][j - i - 1];
    assert s[i] in multiset(s[..i + 1]) && s[i] in multiset(s[i + 1..]);
  }

  lemma {:induction false} AtMostOnce(s: seq<Frame>, f: Frame)
    requires Distinct(s)
    ensures multiset(s)[f] <= 1
  {
    if s != [] {
      var n := |s| - 1;
      AtMostOnce(s[..n], f);
      assert s == s[..n] + [s[n]];
      assert s[n] !in s[..n];
    }
  }

  lemma BothDistinct(id: uint32, a: bytes, b: bytes)
    requires Sendable(a) && Sendable(b) && Differ(a, b)
    ensures Distinct(Split(id, a) + Split(id, b))
  {
    hide Chunks;
  }

  /** Different frames of a message, as many as it has, leave none out. */
  lemma NoneLeft(id: uint32, data: bytes, part: seq<Frame>, f: Frame)
    requires WholeMessage(id, data, part) && f in Split(id, data)
    ensures f in part
  {
    hide Chunks;
    DistinctIndices(id, data, part);
    IndicesInRange(id, data, part);
    FullIffAll(Indices(part), |Chunks(data)|);
    assert f.chunkIndex in Indices(part);
    var k :| 0 <= k < |part| && part[k].chunkIndex == f.chunkIndex;
    hide Indices;
  }

  lemma PartIsWhole(id: uint32, data: bytes, part: seq<Frame>)
    requires Sendable(data) && Distinct(part) && |part| == |Chunks(data)|
    requires forall k :: 0 <= k < |part| ==> part[k] in Split(id, data)
    ensures WholeMessage(id, data, part)
  {
    hide Chunks;
  }

  /** Where the first half is all of a, no frame of a comes later. */
  lemma NotAgain(id: uint32, a: bytes, arrived: seq<Frame>, k: nat)
    requires Distinct(arrived) && |Chunks(a)| <= k < |arrived| && WholeMessage(id, a, arrived[..|Chunks(a)|])
    ensures arrived[k] !in Split(id, a)
  {
    hide Chunks;
    assert arrived[k] !in arrived[..|Chunks(a)|];
    if arrived[k] in Split(id, a) {
      NoneLeft(id, a, arrived[..|Chunks(a)|], arrived[k]);
      assert false;
    }
  }

  /** So the second half is all of b. */
  lemma SecondHalf(id: uint32, a: bytes, b: bytes, arrived: seq<Frame>)
    requires Sendable(a) && Sendable(b) && Differ(a, b) && Distinct(arrived)
    requires |arrived| == 2 * |Chunks(a)|
    requires forall k :: 0 <= k < |arrived| ==> arrived[k] in Split(id, a) + Split(id, b)
    requires WholeMessage(id, a, arrived[..|Chunks(a)|])
    ensures WholeMessage(id, b, arrived[|Chunks(a)|..])
  {
    hide Chunks;
    hide WholeMessage;
    var n := |Chunks(a)|;
    var second := arrived[n..];
    forall k | 0 <= k < |second|
      ensures second[k] in Split(id, b)
    {
      assert second[k] == arrived[n + k];
      NotAgain(id, a, arrived, n + k);
    }
    PartIsWhole(id, b, second);
  }

  lemma OneBlock(id: uint32, fs: seq<Frame>, a: bytes, n: nat)
    requires |fs| == n
    ensures InBlocks(id, fs, [a], n) <==> WholeMessage(id, a, fs)
  {
    hide WholeMessage;
    assert fs[..0] == [] && fs[0..] == fs && [a][..0] == [];
    assert InBlocks(id, [], [], n);
  }

  lemma TwoBlocks(id: uint32, fs: seq<Frame>, a: bytes, b: bytes, n: nat)
    requires |fs| == 2 * n
    ensures InBlocks(id, fs, [a, b], n) <==> WholeMessage(id, a, fs[..n]) && WholeMessage(id, b, fs[n..])
  {
    hide WholeMessage;
    assert fs[..|fs| - n] == fs[..n] && fs[|fs| - n..] == fs[n..] && [a, b][..1] == [a];
    OneBlock(id, fs[..n], a, n);
  }

  lemma HalvesDecide(id: uint32, a: bytes, b: bytes, arrived: seq<Frame>)
    requires Sendable(a) && Sendable(b) && Differ(a, b) && Distinct(arrived)
    requires |arrived| == 2 * |Chunks(a)|
    requires forall k :: 0 <= k < |arrived| ==> arrived[k] in Split(id, a) + Split(id, b)
    ensures InBlocks(id, arrived, [a, b], |Chunks(a)|)
            <==> forall k :: 0 <= k < |Chunks(a)| ==> arrived[k] in Split(id, a)
  {
    hide Chunks;
    hide InBlocks;
    var n := |Chunks(a)|;
    TwoBlocks(id, arrived, a, b, n);
    var first := arrived[..n];
    if forall k :: 0 <= k < n ==> arrived[k] in Split(id, a) {
      FirstHalf(id, a, arrived);
      SecondHalf(id, a, b, arrived);
    }
    if WholeMessage(id, a, first) {
      forall k | 0 <= k < n
        ensures arrived[k] in Split(id, a)
      {
        assert arrived[k] == first[k] == Split(id, a)[first[k].chunkIndex];
      }
    }
    hide WholeMessage;
  }

  lemma FirstHalf(id: uint32, a: bytes, arrived: seq<Frame>)
    requires Sendable(a) && Distinct(arrived) && |Chunks(a)| <= |arrived|
    requires forall k :: 0 <= k < |Chunks(a)| ==> arrived[k] in Split(id, a)
    ensures WholeMessage(id, a, arrived[..|Chunks(a)|])
  {
    hide Chunks;
    hide WholeMessage;
    PartIsWhole(id, a, arrived[..|Chunks(a)|]);
  }

  lemma ArrivalOfTwo(id: uint32, a: bytes, b: bytes, n: uint32, arrived: seq<Frame>)
    requires id != 0 && n > 1 && |Chunks(a)| == n && Differ(a, b)
    requires multiset(arrived) == multiset(Split(id, a) + Split(id, b))
    ensures |arrived| == 2 * n && Alike(arrived, id, n) && WellCut(arrived, n) && Distinct(arrived)
    ensures forall k :: 0 <= k < |arrived| ==> arrived[k] in Split(id, a) + Split(id, b)
  {
    hide Chunks;
    var sent := Split(id, a) + Split(id, b);
    SplitIsCut(id, a, n);
    SplitIsCut(id, b, n);
    SameFrames(arrived, sent);
    BothDistinct(id, a, b);
    OnceEach(arrived, sent);
    hide Distinct;
    hide Differ;
    hide Split;
    forall k | 0 <= k < |arrived|
      ensures arrived[k] in Split(id, a) || arrived[k] in Split(id, b)
    {
      assert arrived[k] in sent;
    }
  }

  /**
   Two messages of n > 1 chunks on one ID that differ in every chunk, and all their frames arriving in any order:
   both come out as they were sent, the first one first, exactly if the first n frames are the first one's.
   */
  lemma TwoMessages(id: uint32, a: bytes, b: bytes, n: uint32, arrived: seq<Frame>)
    requires id != 0 && n > 1 && |Chunks(a)| == n && Differ(a, b)
    requires multiset(arrived) == multiset(Split(id, a) + Split(id, b))
    ensures |arrived| == 2 * n
    ensures Run(map[], arrived).emitted == [Message(id, a), Message(id, b)]
            <==> forall k :: 0 <= k < n ==> arrived[k] in Split(id, a)
  {
    hide Chunks;
    hide Run;
    hide InBlocks;
    ArrivalOfTwo(id, a, b, n, arrived);
    HalvesDecide(id, a, b, arrived);
    assert OfLength([a, b], n);
    hide Alike;
    hide WellCut;
    assert Messages(id, [a, b]) == [Message(id, a), Message(id, b)];
    ExactlyInBlocks(map[], id, arrived, [a, b], n);
    hide Messages;
  }
}
