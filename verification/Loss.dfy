/**
 Losing frames of an ID that is used again (internal/webrtc/datachannel.go): what a part of one message that
 was left behind does to the next one, when frames otherwise keep their order.
 */
module Loss {
  import opened Bytes
  import opened Framing
  import opened Reassembly
  import opened Delivery

  /** For these indices, the first k chunks of b, and chunks of a from there on. */
  function Mix(a: seq<bytes>, b: seq<bytes>, keys: set<uint32>, k: nat): (m: map<uint32, bytes>)
    requires k <= |b| && forall i :: i in keys && i >= k ==> i < |a|
    ensures m.Keys == keys
  {
    map i | i in keys :: if i < k then b[i] else a[i]
  }

  /** The first k chunks of b over those chunks of a that are in s. */
  function Over(a: seq<bytes>, b: seq<bytes>, s: set<uint32>, k: nat): (m: map<uint32, bytes>)
    requires |a| < TWO32 && |b| < TWO32 && s <= Range(|a|) && k <= |b|
    ensures m.Keys == s + Range(k)
  {
    Mix(a, b, s + Range(k), k)
  }

  /** As many chunks as the buffer waits for, n, when the first k have been stored over those in s. */
  predicate Fills(s: set<uint32>, n: nat, k: nat)
    requires k <= TWO32
  {
    |s + Range(k)| == n
  }

  /** Two messages of several chunks, and a part of the first. */
  ghost predicate Apt(a: bytes, b: bytes, s: set<uint32>)
  {
    && Sendable(a) && Sendable(b) && |Chunks(a)| > 1 && |Chunks(b)| > 1
    && s != {} && s < Range(|Chunks(a)|)
  }

  // ---- one frame of b

  lemma KeysGrow(s: set<uint32>, k: nat)
    requires k < TWO32
    ensures s + Range(k + 1) == s + Range(k) + {k}
  {
    assert Range(k + 1) == Range(k) + {k};
  }

  lemma MixGrows(a: seq<bytes>, b: seq<bytes>, keys: set<uint32>, k: uint32)
    requires k < |b| && forall i :: i in keys && i >= k ==> i < |a|
    ensures Mix(a, b, keys, k)[k := b[k]] == Mix(a, b, keys + {k}, k + 1)
  {
  }

  lemma OverGrows(a: seq<bytes>, b: seq<bytes>, s: set<uint32>, k: nat)
    requires |a| < TWO32 && |b| < TWO32 && s <= Range(|a|) && k < |b|
    ensures Over(a, b, s, k)[k := b[k]] == Over(a, b, s, k + 1)
  {
    hide Range;
    hide Mix;
    KeysGrow(s, k);
    MixGrows(a, b, s + Range(k), k);
  }

  lemma OverSize(a: seq<bytes>, b: seq<bytes>, s: set<uint32>, k: nat)
    requires |a| < TWO32 && |b| < TWO32 && s <= Range(|a|) && k <= |b|
    ensures |Over(a, b, s, k)| < TWO32 && (|Over(a, b, s, k)| == |a| <==> Fills(s, |a|, k))
  {
    hide Over;
    assert |Over(a, b, s, k)| == |Over(a, b, s, k).Keys|;
    var most := if |a| < |b| then |b| else |a|;
    assert s + Range(k) <= Range(most);
    FullIffAll(s + Range(k), most);
    hide Range;
  }

  lemma StoredInto(n: uint32, before: map<uint32, bytes>, f: Frame, after: map<uint32, bytes>)
    requires f.totalChunks > 1 && before[f.chunkIndex := f.payload] == after && |after| < TWO32
    ensures AcceptAt(Some(Buffer(n, before)), f)
            == if |after| == n then Slot(None, [Message(f.requestID, Join(after, n))])
               else Slot(Some(Buffer(n, after)), [])
  {
  }

  /** The k-th frame of b meets what there is of a and of b. */
  lemma Meets(id: uint32, a: bytes, b: bytes, s: set<uint32>, k: nat)
    requires Apt(a, b, s) && k < |Chunks(b)|
    ensures var n := |Chunks(a)|;
            AcceptAt(Some(Buffer(n, Over(Chunks(a), Chunks(b), s, k))), FrameAt(id, b, k))
            == if Fills(s, n, k + 1) then Slot(None, [Message(id, Join(Over(Chunks(a), Chunks(b), s, k + 1), n))])
               else Slot(Some(Buffer(n, Over(Chunks(a), Chunks(b), s, k + 1))), [])
  {
    hide Chunks;
    hide Join;
    hide AcceptAt;
    hide Range;
    hide Over;
    hide Fills;
    OverGrows(Chunks(a), Chunks(b), s, k);
    OverSize(Chunks(a), Chunks(b), s, k + 1);
    StoredInto(|Chunks(a)|, Over(Chunks(a), Chunks(b), s, k), FrameAt(id, b, k), Over(Chunks(a), Chunks(b), s, k + 1));
  }

  /** One more frame of an ID, at the end of a run. */
  lemma OneMoreFrame(t: Table, fs: seq<Frame>, f: Frame)
    requires f.requestID != 0
    ensures var before, r := Run(t, fs), Run(t, fs + [f]);
            var s := AcceptAt(Entry(before.table, f.requestID), f);
            Entry(r.table, f.requestID) == s.entry && r.emitted == before.emitted + s.emitted
  {
    hide AcceptAt;
    assert (fs + [f])[..|fs|] == fs;
  }

  lemma SplitSnoc(id: uint32, b: bytes, j: nat, k: nat)
    requires Sendable(b) && j < k <= |Chunks(b)|
    ensures Split(id, b)[j..k] == Split(id, b)[j..k - 1] + [FrameAt(id, b, k - 1)]
  {
    hide Chunks;
  }

  // ---- until the buffer has as many chunks as it waits for

  ghost predicate NotYet(s: set<uint32>, n: nat, k: nat)
    requires k <= TWO32
  {
    k == 0 || (NotYet(s, n, k - 1) && !Fills(s, n, k))
  }

  lemma {:induction false} StoredOver(t: Table, id: uint32, a: bytes, b: bytes, s: set<uint32>, k: nat)
    requires id != 0 && Apt(a, b, s) && Entry(t, id) == Partial(a, s) && k <= |Chunks(b)|
    requires NotYet(s, |Chunks(a)|, k)
    ensures var r := Run(t, Split(id, b)[0..k]);
            Entry(r.table, id) == Some(Buffer(|Chunks(a)|, Over(Chunks(a), Chunks(b), s, k))) && r.emitted == []
  {
    hide Chunks;
    hide AcceptAt;
    hide Run;
    hide Over;
    hide Fills;
    hide Range;
    hide Partial;
    if k == 0 {
      Untouched(t, id, a, b, s);
    } else {
      StoredOver(t, id, a, b, s, k - 1);
      SplitSnoc(id, b, 0, k);
      Meets(id, a, b, s, k - 1);
      OneMoreFrame(t, Split(id, b)[0..k - 1], FrameAt(id, b, k - 1));
    }
  }

  lemma Untouched(t: Table, id: uint32, a: bytes, b: bytes, s: set<uint32>)
    requires id != 0 && Apt(a, b, s) && Entry(t, id) == Partial(a, s)
    ensures var r := Run(t, Split(id, b)[0..0]);
            Entry(r.table, id) == Some(Buffer(|Chunks(a)|, Over(Chunks(a), Chunks(b), s, 0))) && r.emitted == []
  {
    hide Chunks;
    assert Over(Chunks(a), Chunks(b), s, 0) == ChunkMap(a, s);
    assert Split(id, b)[0..0] == [];
  }

  /** The first of the m frames of b that fills the buffer, counted from 1, or 0 if none does. */
  function FirstFill(s: set<uint32>, n: nat, m: nat): (j: nat)
    requires m <= TWO32
    ensures j <= m
  {
    if m == 0 then 0
    else
      var j := FirstFill(s, n, m - 1);
      if j > 0 then j else if Fills(s, n, m) then m else 0
  }

  lemma {:induction false} FirstFillIsFirst(s: set<uint32>, n: nat, m: nat)
    requires m <= TWO32
    ensures var j := FirstFill(s, n, m);
            if j == 0 then NotYet(s, n, m) else Fills(s, n, j) && NotYet(s, n, j - 1)
  {
    hide Fills;
    if m > 0 {
      FirstFillIsFirst(s, n, m - 1);
    }
  }

  /** The frame that fills the buffer brings out what there is. */
  lemma Filled(t: Table, id: uint32, a: bytes, b: bytes, s: set<uint32>, k: nat)
    requires id != 0 && Apt(a, b, s) && Entry(t, id) == Partial(a, s)
    requires k > 0 && k == FirstFill(s, |Chunks(a)|, |Chunks(b)|)
    ensures var r := Run(t, Split(id, b)[0..k]);
            && Entry(r.table, id) == None
            && r.emitted == [Message(id, Join(Over(Chunks(a), Chunks(b), s, k), |Chunks(a)|))]
  {
    hide Chunks;
    hide AcceptAt;
    hide Run;
    hide Join;
    hide Over;
    hide Fills;
    hide Range;
    hide Partial;
    hide FirstFill;
    FirstFillIsFirst(s, |Chunks(a)|, |Chunks(b)|);
    StoredOver(t, id, a, b, s, k - 1);
    SplitSnoc(id, b, 0, k);
    Meets(id, a, b, s, k - 1);
    OneMoreFrame(t, Split(id, b)[0..k - 1], FrameAt(id, b, k - 1));
  }

  // ---- the frames of b after that

  /** The frames of b from the j-th on, when nothing of the ID is kept: they do not make up b. */
  lemma {:induction false} Leftover(t: Table, id: uint32, b: bytes, j: nat, k: nat)
    requires id != 0 && Sendable(b) && 0 < j < k <= |Chunks(b)| && Entry(t, id) == None
    ensures Entry(Run(t, Split(id, b)[j..k]).table, id) == Partial(b, Range(k) - Range(j))
    ensures Range(k) - Range(j) != {} && Run(t, Split(id, b)[j..k]).emitted == []
  {
    hide Chunks;
    hide AcceptAt;
    hide Run;
    hide Range;
    LeftoverIsPart(|Chunks(b)|, j, k);
    AcceptChunk(id, b, Range(k - 1) - Range(j), k - 1);
    SplitSnoc(id, b, j, k);
    OneMoreFrame(t, Split(id, b)[j..k - 1], FrameAt(id, b, k - 1));
    if k == j + 1 {
      NoFrames(t, Split(id, b)[j..j]);
    } else {
      Leftover(t, id, b, j, k - 1);
    }
    hide Partial;
  }

  lemma NoFrames(t: Table, fs: seq<Frame>)
    requires fs == []
    ensures Run(t, fs) == State(t, [])
  {
  }

  lemma LeftoverIsPart(n: nat, j: nat, k: nat)
    requires 0 < j < k <= n < TWO32
    ensures Range(k - 1) - Range(j) + {k - 1} == Range(k) - Range(j)
    ensures Range(k - 1) - Range(j) < Range(n) && Range(k) - Range(j) != Range(n) && Range(k) - Range(j) != {}
    ensures k == j + 1 ==> Range(k - 1) - Range(j) == {}
  {
    assert k - 1 in Range(k) - Range(j);
    assert 0 in Range(n) && 0 !in Range(k) - Range(j) && 0 !in Range(k - 1) - Range(j);
  }

  // ---- all of b

  /**
   What comes of all the frames of b: nothing, if the buffer never has as many chunks as it waits for, and b is
   stored over a; else, when it does for the first time, one message, b's beginning with what was left of a, and b's
   end, if that was not yet all of b, is left behind in turn.
   */
  lemma WhatComesOut(t: Table, id: uint32, a: bytes, b: bytes, s: set<uint32>)
    requires id != 0 && Apt(a, b, s) && Entry(t, id) == Partial(a, s)
    ensures var n, m := |Chunks(a)|, |Chunks(b)|;
            var j := FirstFill(s, n, m);
            var r := Run(t, Split(id, b));
            if j == 0 then
              r.emitted == [] && Entry(r.table, id) == Some(Buffer(n, Over(Chunks(a), Chunks(b), s, m)))
            else
              && r.emitted == [Message(id, Join(Over(Chunks(a), Chunks(b), s, j), n))]
              && Entry(r.table, id) == Partial(b, Range(m) - Range(j)) && (Entry(r.table, id) == None <==> j == m)
  {
    hide Chunks;
    hide Run;
    hide Join;
    hide Over;
    hide Fills;
    hide NotYet;
    var n, m := |Chunks(a)|, |Chunks(b)|;
    var j := FirstFill(s, n, m);
    FirstFillIsFirst(s, n, m);
    var frames := Split(id, b);
    assert frames[0..m] == frames;
    if j == 0 {
      StoredOver(t, id, a, b, s, m);
    } else {
      Filled(t, id, a, b, s, j);
      if j < m {
        assert frames == frames[0..j] + frames[j..m];
        RunAppend(t, frames[0..j], frames[j..m]);
        Leftover(Run(t, frames[0..j]).table, id, b, j, m);
      }
    }
    hide Range;
  }

  /** The whole of b fills the buffer, and no part of it does, exactly in these cases. */
  lemma FilledByLast(s: set<uint32>, n: nat, m: nat)
    requires 1 < n < TWO32 && 1 < m < TWO32 && s < Range(n)
    ensures FirstFill(s, n, m) == m ==> m <= n && s + Range(m) == Range(n)
    ensures n == m ==> (FirstFill(s, n, m) == m <==> n - 1 !in s)
  {
    RangeSize(m);
    var j := FirstFill(s, n, m);
    FirstFillIsFirst(s, n, m);
    hide FirstFill;
    if j == m {
      Grows(Range(m), s + Range(m));
      assert m <= n;
      assert s + Range(m) <= Range(n);
      FullIffAll(s + Range(m), n);
    }
    if n == m {
      assert s + Range(n) == Range(n);
      assert Fills(s, n, n);
      if n - 1 in s {
        assert s + Range(n - 1) == Range(n);
        assert Fills(s, n, n - 1);
        assert j != m;
      } else {
        NoneBefore(s, n, j);
      }
    }
  }

  lemma Grows(x: set<uint32>, y: set<uint32>)
    requires x <= y
    ensures |x| <= |y|
  {
    assert y == x + (y - x);
  }

  lemma NoneBefore(s: set<uint32>, n: nat, j: nat)
    requires 1 < n < TWO32 && s < Range(n) && n - 1 !in s && j <= n && (j > 0 ==> Fills(s, n, j))
    ensures j == 0 || j == n
  {
    if 0 < j < n {
      assert s + Range(j) <= Range(n) && n - 1 in Range(n) && n - 1 !in s + Range(j);
      FullIffAll(s + Range(j), n);
    }
  }

  /** Join looks at nothing but the chunks below its bound. */
  lemma {:induction false} JoinSame(x: map<uint32, bytes>, y: map<uint32, bytes>, n: uint32)
    requires forall i: uint32 :: i < n ==> i in x && i in y && x[i] == y[i]
    ensures Join(x, n) == Join(y, n)
  {
    if n > 0 {
      JoinSame(x, y, n - 1);
    }
  }

  lemma {:induction false} JoinLonger(x: map<uint32, bytes>, m: uint32, n: uint32)
    requires m <= n
    ensures |Join(x, m)| <= |Join(x, n)|
    ensures m < n && n - 1 in x && x[n - 1] != [] ==> |Join(x, m)| < |Join(x, n)|
  {
    if m < n {
      JoinLonger(x, m, n - 1);
    }
  }

  /** When the last frame of b fills the buffer, b is what comes out exactly if it has as many chunks as a. */
  lemma JoinedIsWhole(a: bytes, b: bytes, s: set<uint32>)
    requires Apt(a, b, s) && |Chunks(b)| <= |Chunks(a)| && s + Range(|Chunks(b)|) == Range(|Chunks(a)|)
    ensures Join(Over(Chunks(a), Chunks(b), s, |Chunks(b)|), |Chunks(a)|) == b <==> |Chunks(a)| == |Chunks(b)|
  {
    hide Chunks;
    hide Join;
    var n, m := |Chunks(a)|, |Chunks(b)|;
    var x := Over(Chunks(a), Chunks(b), s, m);
    JoinSame(x, ChunkMap(b, Range(m)), m);
    JoinAll(b);
    if m < n {
      assert n - 1 in Range(n);
      assert x[n - 1] == Chunks(a)[n - 1];
      JoinLonger(x, m, n);
    }
    hide Over;
  }

  /**
   Frames in order, some lost, the ID used again for a message of several chunks: when the part s of a has been left
   behind and all of b then arrives, b comes out, alone and with nothing left over, exactly if it has as many
   chunks as a and the last chunk of a was among those lost.
   */
  lemma NextMessageIsClean(t: Table, id: uint32, a: bytes, b: bytes, s: set<uint32>)
    requires id != 0 && Apt(a, b, s) && Entry(t, id) == Partial(a, s)
    ensures var r := Run(t, Split(id, b));
            r.emitted == [Message(id, b)] && Entry(r.table, id) == None
            <==> |Chunks(a)| == |Chunks(b)| && |Chunks(a)| - 1 !in s
  {
    hide Chunks;
    hide Run;
    hide Join;
    hide Over;
    hide FirstFill;
    hide Partial;
    hide Split;
    WhatComesOut(t, id, a, b, s);
    var n, m := |Chunks(a)|, |Chunks(b)|;
    FilledByLast(s, n, m);
    if FirstFill(s, n, m) == m {
      JoinedIsWhole(a, b, s);
    }
    hide Range;
  }
}
