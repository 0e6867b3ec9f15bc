/**
 A client and a host TCP proxy joined by two pipes, as a system of interleaved steps, and the
 integrity of every connection's two byte streams in all its reachable states.
 */
module Tunnel {
  import opened Bytes
  import opened Framing
  import opened TcpProxy
  import L = Link
  import P = Pipe

  // ---- chunk lists

  /** The payloads of the data messages, in order. */
  function DataOf(ms: seq<TCPMessage>): seq<bytes>
  {
    if ms == [] then []
    else
      var before := DataOf(ms[..|ms| - 1]);
      if ms[|ms| - 1].Data? then before + [ms[|ms| - 1].data] else before
  }

  /** a is b with some elements left out. */
  ghost predicate Subsequence<T>(a: seq<T>, b: seq<T>)
  {
    a == [] ||
    (b != [] && (Subsequence(a, b[..|b| - 1])
                 || (a[|a| - 1] == b[|b| - 1] && Subsequence(a[..|a| - 1], b[..|b| - 1]))))
  }

  /** All of the chunks, except that of the last one only a part may have gone through. */
  ghost predicate Cut(written: seq<bytes>, chunks: seq<bytes>)
  {
    written == chunks ||
    (|written| == |chunks| > 0 && written[..|chunks| - 1] == chunks[..|chunks| - 1]
     && written[|chunks| - 1] <= chunks[|chunks| - 1])
  }

  lemma DataOfSnoc(ms: seq<TCPMessage>, m: TCPMessage)
    ensures DataOf(ms + [m]) == DataOf(ms) + (if m.Data? then [m.data] else [])
  {
    assert (ms + [m])[..|ms + [m]| - 1] == ms;
  }

  lemma {:induction false} DataOfPrefix(a: seq<TCPMessage>, b: seq<TCPMessage>)
    requires a <= b
    ensures DataOf(a) <= DataOf(b)
  {
    if a != b {
      DataOfPrefix(a, b[..|b| - 1]);
    }
  }

  lemma {:induction false} DataOfSubsequence(a: seq<TCPMessage>, b: seq<TCPMessage>)
    requires Subsequence(a, b)
    ensures Subsequence(DataOf(a), DataOf(b))
  {
    if a != [] {
      var b0 := b[..|b| - 1];
      if Subsequence(a, b0) {
        DataOfSubsequence(a, b0);
        SubsequenceGrow(DataOf(a), DataOf(b0), DataOf(b));
      } else {
        DataOfSubsequence(a[..|a| - 1], b0);
        if b[|b| - 1].Data? {
          SubsequenceBoth(DataOf(a[..|a| - 1]), DataOf(b0), b[|b| - 1].data);
        }
      }
    }
  }

  lemma SubsequenceBoth<T>(a: seq<T>, b: seq<T>, x: T)
    requires Subsequence(a, b)
    ensures Subsequence(a + [x], b + [x])
  {
    assert (a + [x])[..|a|] == a && (b + [x])[..|b|] == b;
  }

  lemma {:induction false} SubsequenceGrow<T>(a: seq<T>, b: seq<T>, b': seq<T>)
    requires Subsequence(a, b) && b <= b'
    ensures Subsequence(a, b')
  {
    if b != b' {
      SubsequenceGrow(a, b, b'[..|b'| - 1]);
    }
  }

  lemma {:induction false} SubsequenceShrink<T>(a: seq<T>, a': seq<T>, b: seq<T>)
    requires Subsequence(a, b) && a' <= a
    ensures Subsequence(a', b)
  {
    if a' != [] && a != a' {
      if Subsequence(a, b[..|b| - 1]) {
        SubsequenceShrink(a, a', b[..|b| - 1]);
      } else {
        SubsequenceShrink(a[..|a| - 1], a', b[..|b| - 1]);
      }
      SubsequenceGrow(a', b[..|b| - 1], b);
    }
  }

  lemma {:induction false} FlattenPrefix(a: seq<bytes>, b: seq<bytes>)
    requires a <= b
    ensures Flatten(a) <= Flatten(b)
  {
    if a != b {
      FlattenPrefix(a, b[..|b| - 1]);
    }
  }

  lemma CutFlattens(written: seq<bytes>, chunks: seq<bytes>)
    requires Cut(written, chunks)
    ensures Flatten(written) <= Flatten(chunks)
  {
  }

  lemma WriteCuts(chunks: seq<bytes>, data: bytes, room: nat)
    ensures Cut(Write(chunks, data, room), chunks + [data])
    ensures room >= |data| ==> Write(chunks, data, room) == chunks + [data]
  {
    assert data[..|data|] == data;
  }

  // ---- the system

  /** `lives` of the host carry the remote sockets, `conns` of the client the local ones. */
  datatype System = System(client: Client, host: Host, up: P.Pipe, down: P.Pipe)

  datatype Action =
    | Accepts(address: string)
    | ReadsLocal(id: uint32, r: ReadResult)
    | FrameUp(id: uint32)
    | Dispatches
    | Lives(k: nat, dialError: Option<bytes>, room: nat)
    | ReadsTarget(k: nat, r: ReadResult, refusedAt: Option<nat>)
    | FrameDown(id: uint32)
    | ClientTakes(room: nat)
    | Heartbeats
    | Breaks(upward: bool, id: uint32, n: nat)
    | Stops

  function Init(): System
  {
    System(Client(0, {}, map[]), Host(map[], [], false, {}), P.Empty(), P.Empty())
  }

  /** Reads fill at most the read buffer, and the environment's texts are no longer. */
  predicate Fits(a: Action)
  {
    match a
    case Accepts(address) => |address| <= READ_BUFFER
    case ReadsLocal(_, r) => |r.chunk| <= READ_BUFFER
    case ReadsTarget(_, r, _) => |r.chunk| <= READ_BUFFER
    case Lives(_, e, _) => e.Some? ==> |e.value| <= READ_BUFFER
    case _ => true
  }

  /**
   A step that is not possible in the state leaves it as it is. From some moment on everything on an ID may be lost
   in one direction (Breaks), frames in flight or refused by peer.Send; where the proxy looks at that, in
   forwardFromTarget, `refusedAt` is how many frames of the message still get out.
   */
  ghost function Step(c: P.Codec, s: System, a: Action): System
  {
    match a
    case Accepts(address) =>
      var r := AcceptConn(s.client, address);
      s.(client := r.client, up := P.PostAll(c, s.up, r.sends))
    case ReadsLocal(id, r) =>
      var q := LocalRead(s.client, id, r);
      s.(client := q.client, up := P.PostAll(c, s.up, q.sends))
    case FrameUp(id) => s.(up := s.up.(link := L.Deliver(s.up.link, id)))
    case Dispatches =>
      if s.host.stopped || s.up.link.inbox == [] then s
      else
        var up := s.up.(link := L.Take(s.up.link));
        var m := c.unmarshal(s.up.link.inbox[0].data);
        if m.Some? then s.(up := up, host := Dispatch(s.host, m.value)) else s.(up := up)
    case Lives(k, dialError, room) =>
      if k >= |s.host.lives| then s
      else
        var r := LifeNext(s.host, k, dialError, room);
        s.(host := r.host, down := P.PostAll(c, s.down, r.sends))
    case ReadsTarget(k, r, refusedAt) =>
      if k >= |s.host.lives| then s
      else
        var id := s.host.lives[k].id;
        var q := TargetRead(s.host, k, r, refusedAt.Some?);
        var down := P.PostAll(c, s.down, q.sends);
        s.(host := q.host,
           down := if q.sends != [] && id != 0 && refusedAt.Some? then
                     P.Break(down, id, |At(s.down.link.wire, id)| + refusedAt.value)
                   else down)
    case FrameDown(id) => s.(down := s.down.(link := L.Deliver(s.down.link, id)))
    case ClientTakes(room) =>
      if s.down.link.inbox == [] then s
      else
        var down := s.down.(link := L.Take(s.down.link));
        var m := c.unmarshal(s.down.link.inbox[0].data);
        if m.Some? then s.(down := down, client := ClientMessage(s.client, m.value, room)) else s.(down := down)
    case Heartbeats =>
      s.(up := s.up.(link := L.Ping(s.up.link)), down := s.down.(link := L.Ping(s.down.link)))
    case Breaks(upward, id, n) =>
      if id == 0 then s
      else if upward then s.(up := P.Break(s.up, id, n))
      else s.(down := P.Break(s.down, id, n))
    case Stops => s.(host := StopHost(s.host))
  }

  // ---- what each side has sent

  function Datas(id: uint32, chunks: seq<bytes>): seq<TCPMessage>
  {
    seq(|chunks|, i requires 0 <= i < |chunks| => Data(id, chunks[i]))
  }

  function UpLog(c: Client, id: uint32): seq<TCPMessage>
  {
    if id in c.conns then
      var conn := c.conns[id];
      [Connect(id, conn.address)] + Datas(id, conn.read) + (if conn.reading then [] else [Disconnect(id)])
    else []
  }

  function DownLog(l: Lifecycle): seq<TCPMessage>
  {
    match l.reader
    case Unstarted => []
    case Refused(e) => [Error(l.id, e)]
    case Reading => Datas(l.id, l.read)
    case Broken => Datas(l.id, l.read)
    case Finished => Datas(l.id, l.read) + [Disconnect(l.id)]
  }

  // ---- the invariant

  ghost predicate ClientOK(c: Client)
  {
    && Tracked(c) && (forall id :: id in c.conns <==> 1 <= id <= c.requestIDCounter)
    && forall id :: id in c.conns ==> (id in c.activeConns <==> c.conns[id].reading && !c.conns[id].closed)
  }

  /** No message but perhaps the last is a disconnect. */
  ghost predicate DisconnectIsLast(ms: seq<TCPMessage>)
  {
    forall i :: 0 <= i < |ms| - 1 ==> !ms[i].Disconnect?
  }

  /** A goroutine whose ID had the messages d dispatched; `lost` tells whether its queue ever overflowed. */
  ghost predicate LifeOK(l: Lifecycle, d: seq<TCPMessage>, lost: bool)
  {
    var fed := l.consumed + l.queue;
    && fed != [] && d != [] && fed[0] == d[0] && d[0].Connect?
    && |l.queue| <= QUEUE_SIZE
    && Subsequence(fed, d)
    && (!lost ==> fed <= d && (l.phase != Done ==> fed == d))
    && DisconnectIsLast(l.consumed)
    && match l.phase
       case Waiting => l.consumed == [] && l.written == [] && l.read == [] && l.reader == Unstarted
       case Running =>
         && l.consumed != [] && l.written == DataOf(l.consumed)
         && (l.reader == Reading || l.reader == Finished || l.reader == Broken)
         && !l.consumed[|l.consumed| - 1].Disconnect?
       case Done => l.consumed != [] && Cut(l.written, DataOf(l.consumed)) && l.reader != Unstarted
  }

  ghost predicate NoLife(h: Host, id: uint32)
  {
    forall k :: 0 <= k < |h.lives| ==> h.lives[k].id != id
  }

  ghost predicate ChansOK(h: Host)
  {
    && Wired(h)
    && (forall id :: id in h.reqChans ==> var l := h.lives[h.reqChans[id]]; l.id == id && l.phase != Done)
    && (forall k :: 0 <= k < |h.lives| && h.lives[k].phase != Done ==>
          h.lives[k].id in h.reqChans && h.reqChans[h.lives[k].id] == k)
    && (forall i, k :: 0 <= i < k < |h.lives| ==> h.lives[i].id != h.lives[k].id)
    && (forall k :: 0 <= k < |h.lives| ==> h.lives[k].id != 0 && (h.lives[k].closed ==> h.stopped))
  }

  ghost predicate LivesOK(h: Host, up: P.Pipe)
  {
    && (forall k :: 0 <= k < |h.lives| ==>
          LifeOK(h.lives[k], P.TakenLog(up, h.lives[k].id), h.lives[k].id in h.lost))
    && (forall id: uint32 :: id != 0 && NoLife(h, id) ==> P.TakenLog(up, id) == [])
  }

  ghost predicate UpOK(c: Client, up: P.Pipe)
  {
    forall id: uint32 :: At(up.log, id) == UpLog(c, id)
  }

  ghost predicate DownOK(h: Host, down: P.Pipe)
  {
    && (forall k :: 0 <= k < |h.lives| ==> At(down.log, h.lives[k].id) == DownLog(h.lives[k]))
    && (forall id: uint32 :: NoLife(h, id) ==> At(down.log, id) == [])
  }

  /** What a local connection was written, when the messages d were taken for it. */
  ghost predicate WrittenOK(conn: LocalConn, active: bool, d: seq<TCPMessage>)
  {
    && (active ==> conn.written == DataOf(d))
    && exists n: nat :: n <= |DataOf(d)| && Cut(conn.written, DataOf(d)[..n])
  }

  ghost predicate LocalsOK(c: Client, down: P.Pipe)
  {
    forall id :: id in c.conns ==> WrittenOK(c.conns[id], id in c.activeConns, P.TakenLog(down, id))
  }

  ghost predicate Inv(c: P.Codec, s: System)
  {
    && P.Inv(c, s.up) && P.Inv(c, s.down)
    && ClientOK(s.client) && ChansOK(s.host)
    && UpOK(s.client, s.up) && LivesOK(s.host, s.up)
    && DownOK(s.host, s.down) && LocalsOK(s.client, s.down)
  }

  // ---- posting keeps what the other side has taken

  lemma SameTaken(c: P.Codec, p: P.Pipe, p': P.Pipe, id: uint32, ms: seq<TCPMessage>)
    requires P.Inv(c, p) && P.Extends(p, p', id, ms)
    ensures forall i: uint32 :: i != 0 ==> P.TakenLog(p', i) == P.TakenLog(p, i)
  {
    hide P.Inv;
    hide P.TakenOn;
    forall i: uint32 | i != 0
      ensures P.TakenLog(p', i) == P.TakenLog(p, i)
    {
      P.TakenWithinLog(c, p, i);
    }
  }

  lemma SameLives(h: Host, up: P.Pipe, up': P.Pipe)
    requires ChansOK(h) && LivesOK(h, up)
    requires forall i: uint32 :: i != 0 ==> P.TakenLog(up', i) == P.TakenLog(up, i)
    ensures LivesOK(h, up')
  {
    hide P.TakenLog;
    hide LifeOK;
  }

  lemma SameLocals(c: Client, down: P.Pipe, down': P.Pipe)
    requires ClientOK(c) && LocalsOK(c, down)
    requires forall i: uint32 :: i != 0 ==> P.TakenLog(down', i) == P.TakenLog(down, i)
    ensures LocalsOK(c, down')
  {
    hide P.TakenLog;
    hide WrittenOK;
  }

  /** The client went to c' and posts ms, and its log grew accordingly. */
  lemma ClientPosts(c: P.Codec, s: System, client': Client, id: uint32, ms: seq<TCPMessage>)
    requires P.Lawful(c) && Inv(c, s) && id != 0
    requires P.OnlyOn(id, ms) && P.AllPostable(ms)
    requires forall i: uint32 :: UpLog(client', i) == if i == id then UpLog(s.client, id) + ms else UpLog(s.client, i)
    ensures var up := P.PostAll(c, s.up, ms);
            P.Inv(c, up) && UpOK(client', up) && LivesOK(s.host, up)
  {
    hide P.Inv;
    hide P.Lawful;
    hide P.PostAll;
    hide UpLog;
    hide LivesOK;
    hide ChansOK;
    hide DownOK;
    hide LocalsOK;
    hide ClientOK;
    hide P.TakenLog;
    P.PostAllKeepsInv(c, s.up, id, ms);
    SameTaken(c, s.up, P.PostAll(c, s.up, ms), id, ms);
    SameLives(s.host, s.up, P.PostAll(c, s.up, ms));
  }

  /** The host posts ms on id. */
  lemma HostPosts(c: P.Codec, s: System, id: uint32, ms: seq<TCPMessage>)
    requires P.Lawful(c) && Inv(c, s) && id != 0
    requires P.OnlyOn(id, ms) && P.AllPostable(ms)
    ensures var down := P.PostAll(c, s.down, ms);
            P.Inv(c, down) && P.Extends(s.down, down, id, ms) && LocalsOK(s.client, down)
  {
    hide P.Inv;
    hide P.Lawful;
    hide P.PostAll;
    hide LivesOK;
    hide ChansOK;
    hide DownOK;
    hide UpOK;
    hide P.TakenLog;
    P.PostAllKeepsInv(c, s.down, id, ms);
    SameTaken(c, s.down, P.PostAll(c, s.down, ms), id, ms);
    SameLocals(s.client, s.down, P.PostAll(c, s.down, ms));
  }

  // ---- the client's steps

  lemma AcceptsKeepsInv(c: P.Codec, s: System, address: string)
    requires P.Lawful(c) && Inv(c, s) && |address| <= READ_BUFFER && s.client.requestIDCounter + 1 < TWO32
    ensures Inv(c, Step(c, s, Accepts(address)))
  {
    hide P.Inv;
    hide P.Lawful;
    hide P.PostAll;
    hide LivesOK;
    hide ChansOK;
    hide DownOK;
    hide WrittenOK;
    hide UpLog;
    var r := AcceptConn(s.client, address);
    var id := s.client.requestIDCounter + 1;
    AcceptLog(s.client, address);
    ClientPosts(c, s, r.client, id, r.sends);
    NewLocal(c, s, r.client, id);
  }

  lemma AcceptLog(c: Client, address: string)
    requires ClientOK(c) && c.requestIDCounter + 1 < TWO32
    ensures var r, id := AcceptConn(c, address), c.requestIDCounter + 1;
            && id !in c.conns && ClientOK(r.client)
            && r.client.conns == c.conns[id := LocalConn(address, [], true, [], false)]
            && r.client.activeConns == c.activeConns + {id} && r.sends == [Connect(id, address)]
            && forall i: uint32 :: UpLog(r.client, i) == if i == id then UpLog(c, id) + r.sends else UpLog(c, i)
  {
    var id := c.requestIDCounter + 1;
    assert id % TWO32 == id;
    assert UpLog(AcceptConn(c, address).client, id) == [Connect(id, address)];
  }

  /** Nothing was ever posted down for an ID that was not accepted. */
  lemma NewLocal(c: P.Codec, s: System, client': Client, id: uint32)
    requires Inv(c, s) && id != 0 && id !in s.client.conns
    requires client'.conns.Keys == s.client.conns.Keys + {id} && client'.conns[id].written == []
    requires client'.activeConns == s.client.activeConns + {id}
    requires forall i :: i in s.client.conns ==> client'.conns[i] == s.client.conns[i]
    ensures LocalsOK(client', s.down)
  {
    hide P.Inv;
    hide UpOK;
    hide ChansOK;
    hide LifeOK;
    hide DownLog;
    NotAccepted(c, s, id);
    assert P.TakenLog(s.down, id) == [];
    assert DataOf([]) == [];
    assert Cut([], DataOf([])[..0]);
    assert WrittenOK(client'.conns[id], true, []);
  }

  lemma NotAccepted(c: P.Codec, s: System, id: uint32)
    requires Inv(c, s) && id != 0 && id !in s.client.conns
    ensures NoLife(s.host, id) && At(s.down.log, id) == []
  {
    hide P.Inv;
    assert At(s.up.log, id) == UpLog(s.client, id) == [];
    forall k | 0 <= k < |s.host.lives|
      ensures s.host.lives[k].id != id
    {
      assert LifeOK(s.host.lives[k], P.TakenLog(s.up, s.host.lives[k].id), s.host.lives[k].id in s.host.lost);
    }
  }

  lemma DatasSnoc(id: uint32, chunks: seq<bytes>, chunk: bytes)
    ensures Datas(id, chunks + [chunk]) == Datas(id, chunks) + [Data(id, chunk)]
  {
  }

  lemma LocalReadLog(c: Client, id: uint32, r: ReadResult, i: uint32)
    ensures var q := LocalRead(c, id, r);
            UpLog(q.client, i) == if i == id then UpLog(c, id) + q.sends else UpLog(c, i)
  {
    if i == id && id in c.conns && c.conns[id].reading {
      DatasSnoc(id, c.conns[id].read, r.chunk);
    }
  }

  lemma ReadsLocalKeepsInv(c: P.Codec, s: System, id: uint32, r: ReadResult)
    requires P.Lawful(c) && Inv(c, s) && |r.chunk| <= READ_BUFFER
    ensures Inv(c, Step(c, s, ReadsLocal(id, r)))
  {
    hide P.Inv;
    hide P.Lawful;
    hide LivesOK;
    hide ChansOK;
    hide DownOK;
    hide UpLog;
    var q := LocalRead(s.client, id, r);
    if id in s.client.conns {
      forall i: uint32
        ensures UpLog(q.client, i) == if i == id then UpLog(s.client, id) + q.sends else UpLog(s.client, i)
      {
        LocalReadLog(s.client, id, r, i);
      }
      ClientPosts(c, s, q.client, id, q.sends);
      LocalReadWrites(s.client, id, r, s.down);
    }
  }

  lemma LocalReadWrites(c: Client, id: uint32, r: ReadResult, down: P.Pipe)
    requires ClientOK(c) && LocalsOK(c, down)
    ensures var c' := LocalRead(c, id, r).client;
            ClientOK(c') && LocalsOK(c', down)
  {
    hide P.TakenLog;
    hide DataOf;
    hide Cut;
    var c' := LocalRead(c, id, r).client;
    forall i | i in c'.conns
      ensures WrittenOK(c'.conns[i], i in c'.activeConns, P.TakenLog(down, i))
    {
      assert WrittenOK(c.conns[i], i in c.activeConns, P.TakenLog(down, i));
    }
  }

  /** One more data message for the connection: written while it is active, ignored afterwards. */
  lemma DataWrites(conn: LocalConn, active: bool, d: seq<TCPMessage>, m: TCPMessage, room: nat)
    requires WrittenOK(conn, active, d) && m.Data?
    ensures var conn' := if active then conn.(written := Write(conn.written, m.data, room)) else conn;
            WrittenOK(conn', active && room >= |m.data|, d + [m])
  {
    hide Cut;
    WriteCuts(DataOf(d), m.data, room);
    DataOfSnoc(d, m);
    var all := DataOf(d + [m]);
    if active {
      assert all[..|all|] == all;
      assert Cut(Write(conn.written, m.data, room), all[..|all|]);
    } else {
      var n: nat :| n <= |DataOf(d)| && Cut(conn.written, DataOf(d)[..n]);
      assert all[..n] == DataOf(d)[..n];
    }
  }

  lemma OtherMessageWritesNothing(conn: LocalConn, active: bool, d: seq<TCPMessage>, m: TCPMessage)
    requires WrittenOK(conn, active, d) && !m.Data?
    ensures WrittenOK(conn, active, d + [m]) && WrittenOK(conn, false, d + [m])
  {
    hide Cut;
    DataOfSnoc(d, m);
  }

  lemma ClientTakesKeepsInv(c: P.Codec, s: System, room: nat)
    requires P.Lawful(c) && Inv(c, s)
    ensures Inv(c, Step(c, s, ClientTakes(room)))
  {
    hide P.Inv;
    hide P.Lawful;
    hide LivesOK;
    hide ChansOK;
    hide UpLog;
    hide Cut;
    hide WrittenOK;
    if s.down.link.inbox != [] {
      P.TakeNext(c, s.down);
      hide P.TakenLog;
      var down := s.down.(link := L.Take(s.down.link));
      var id := s.down.link.inbox[0].requestID;
      var m := At(s.down.log, id)[P.TakenOn(s.down, id)];
      var client := ClientMessage(s.client, m, room);
      TakenByClient(s.client, s.down, down, m, room);
      assert forall i: uint32 :: UpLog(client, i) == UpLog(s.client, i) by {
        forall i: uint32
          ensures UpLog(client, i) == UpLog(s.client, i)
        {
          MessageKeepsLog(s.client, m, room, i);
        }
      }
    }
  }

  lemma MessageKeepsLog(c: Client, m: TCPMessage, room: nat, i: uint32)
    ensures UpLog(ClientMessage(c, m, room), i) == UpLog(c, i)
  {
  }

  lemma TakenByClient(c: Client, down: P.Pipe, down': P.Pipe, m: TCPMessage, room: nat)
    requires ClientOK(c) && LocalsOK(c, down) && m.requestID != 0
    requires P.TakenLog(down', m.requestID) == P.TakenLog(down, m.requestID) + [m]
    requires forall i: uint32 :: i != m.requestID ==> P.TakenLog(down', i) == P.TakenLog(down, i)
    ensures ClientOK(ClientMessage(c, m, room)) && LocalsOK(ClientMessage(c, m, room), down')
  {
    hide P.TakenLog;
    hide Cut;
    hide DataOf;
    var c' := ClientMessage(c, m, room);
    var id := m.requestID;
    forall i | i in c'.conns
      ensures WrittenOK(c'.conns[i], i in c'.activeConns, P.TakenLog(down', i))
    {
      assert WrittenOK(c.conns[i], i in c.activeConns, P.TakenLog(down, i));
      if i == id {
        if m.Data? {
          DataWrites(c.conns[id], id in c.activeConns, P.TakenLog(down, id), m, room);
        } else {
          OtherMessageWritesNothing(c.conns[id], id in c.activeConns, P.TakenLog(down, id), m);
        }
      }
    }
  }

  // ---- the host's steps

  lemma NewLifeOK(m: TCPMessage, lost: bool)
    requires m.Connect?
    ensures LifeOK(Lifecycle(m.requestID, [m], false, Waiting, [], [], Unstarted, []), [m], lost)
  {
    assert [] + [m] == [m];
    assert Subsequence([], [m][..0]);
    assert [m][..0] == [];
    assert Subsequence([m], [m]);
  }

  lemma QueuedOK(l: Lifecycle, d: seq<TCPMessage>, lost: bool, m: TCPMessage)
    requires LifeOK(l, d, lost) && l.phase != Done && |l.queue| < QUEUE_SIZE
    ensures LifeOK(l.(queue := l.queue + [m]), d + [m], lost)
  {
    var fed := l.consumed + l.queue;
    assert l.consumed + (l.queue + [m]) == fed + [m];
    SubsequenceBoth(fed, d, m);
  }

  lemma MissedOK(l: Lifecycle, d: seq<TCPMessage>, lost: bool, m: TCPMessage)
    requires LifeOK(l, d, lost)
    ensures LifeOK(l, d + [m], true)
    ensures l.phase == Done ==> LifeOK(l, d + [m], lost)
  {
    SubsequenceGrow(l.consumed + l.queue, d, d + [m]);
  }

  /** The message after the n-th on an ID is its connect exactly when n is 0. */
  lemma ConnectIsFirst(c: Client, id: uint32, n: nat)
    requires n < |UpLog(c, id)|
    ensures UpLog(c, id)[n].Connect? <==> n == 0
  {
  }

  lemma OpenedOK(h: Host, m: TCPMessage)
    requires ChansOK(h) && !h.stopped && m.Connect? && m.requestID != 0 && NoLife(h, m.requestID)
    ensures var h' := Dispatch(h, m);
            && ChansOK(h')
            && h' == h.(reqChans := h.reqChans[m.requestID := |h.lives|],
                        lives := h.lives + [Lifecycle(m.requestID, [m], false, Waiting, [], [], Unstarted, [])])
  {
    assert [] + [m] == [m];
    var l := Lifecycle(m.requestID, [], false, Waiting, [], [], Unstarted, []);
    assert (h.lives + [l])[|h.lives| := l.(queue := [m])] == h.lives + [l.(queue := [m])];
  }

  lemma QueuedChans(h: Host, m: TCPMessage)
    requires ChansOK(h) && !h.stopped && !m.Connect?
    ensures var h' := Dispatch(h, m);
            && ChansOK(h') && |h'.lives| == |h.lives|
            && forall k :: 0 <= k < |h.lives| ==>
                 h'.lives[k].id == h.lives[k].id && DownLog(h'.lives[k]) == DownLog(h.lives[k])
  {
  }

  lemma OpenedLives(h: Host, up: P.Pipe, up': P.Pipe, m: TCPMessage)
    requires ChansOK(h) && LivesOK(h, up) && !h.stopped && m.requestID != 0 && m.Connect? && NoLife(h, m.requestID)
    requires P.TakenLog(up', m.requestID) == [m]
    requires forall i: uint32 :: i != m.requestID ==> P.TakenLog(up', i) == P.TakenLog(up, i)
    ensures LivesOK(Dispatch(h, m), up')
  {
    hide P.TakenLog;
    hide LifeOK;
    OpenedOK(h, m);
    hide Dispatch;
    var h' := Dispatch(h, m);
    hide ChansOK;
    NewLifeOK(m, m.requestID in h.lost);
    forall k | 0 <= k < |h'.lives|
      ensures LifeOK(h'.lives[k], P.TakenLog(up', h'.lives[k].id), h'.lives[k].id in h'.lost)
    {
      if k < |h.lives| {
        assert LifeOK(h.lives[k], P.TakenLog(up, h.lives[k].id), h.lives[k].id in h.lost);
      }
    }
    forall id: uint32 | id != 0 && NoLife(h', id)
      ensures P.TakenLog(up', id) == []
    {
      assert h'.lives[|h.lives|].id != id;
      assert forall k :: 0 <= k < |h.lives| ==> h.lives[k].id == h'.lives[k].id;
      assert NoLife(h, id);
    }
  }

  lemma DispatchLives(h: Host, up: P.Pipe, up': P.Pipe, m: TCPMessage)
    requires ChansOK(h) && LivesOK(h, up) && !h.stopped && m.requestID != 0
    requires P.TakenLog(up', m.requestID) == P.TakenLog(up, m.requestID) + [m]
    requires forall i: uint32 :: i != m.requestID ==> P.TakenLog(up', i) == P.TakenLog(up, i)
    requires m.Connect? <==> P.TakenLog(up, m.requestID) == []
    ensures ChansOK(Dispatch(h, m)) && LivesOK(Dispatch(h, m), up')
  {
    hide P.TakenLog;
    hide LifeOK;
    hide Dispatch;
    hide ChansOK;
    var h' := Dispatch(h, m);
    if m.Connect? {
      FirstMessage(h, up, m.requestID);
      OpenedOK(h, m);
      OpenedLives(h, up, up', m);
    } else {
      QueuedChans(h, m);
      forall k | 0 <= k < |h'.lives|
        ensures LifeOK(h'.lives[k], P.TakenLog(up', h'.lives[k].id), h'.lives[k].id in h'.lost)
      {
        DispatchLife(h, up, m, k);
      }
      forall id: uint32 | id != 0 && NoLife(h', id)
        ensures P.TakenLog(up', id) == []
      {
        assert NoLife(h, id);
      }
    }
  }

  lemma FirstMessage(h: Host, up: P.Pipe, id: uint32)
    requires LivesOK(h, up) && P.TakenLog(up, id) == []
    ensures NoLife(h, id)
  {
    hide P.TakenLog;
    forall k | 0 <= k < |h.lives|
      ensures h.lives[k].id != id
    {
      assert LifeOK(h.lives[k], P.TakenLog(up, h.lives[k].id), h.lives[k].id in h.lost);
    }
  }

  /** What a further message does to the k-th goroutine. */
  lemma DispatchLife(h: Host, up: P.Pipe, m: TCPMessage, k: nat)
    requires ChansOK(h) && LivesOK(h, up) && !h.stopped && !m.Connect? && k < |h.lives|
    ensures var h', l, d := Dispatch(h, m), h.lives[k], P.TakenLog(up, h.lives[k].id);
            LifeOK(h'.lives[k], if l.id == m.requestID then d + [m] else d, l.id in h'.lost)
  {
    hide P.TakenLog;
    hide LifeOK;
    var l := h.lives[k];
    var d := P.TakenLog(up, l.id);
    assert LifeOK(l, d, l.id in h.lost);
    if l.id == m.requestID {
      MissedOK(l, d, l.id in h.lost, m);
      if l.phase != Done && |l.queue| < QUEUE_SIZE {
        QueuedOK(l, d, l.id in h.lost, m);
      }
    }
  }

  lemma DispatchDown(h: Host, down: P.Pipe, m: TCPMessage)
    requires ChansOK(h) && DownOK(h, down) && !h.stopped && m.requestID != 0 && (m.Connect? ==> NoLife(h, m.requestID))
    ensures DownOK(Dispatch(h, m), down)
  {
    hide Dispatch;
    if m.Connect? {
      OpenedOK(h, m);
    } else {
      QueuedChans(h, m);
    }
    var h' := Dispatch(h, m);
    forall id: uint32 | NoLife(h', id)
      ensures At(down.log, id) == []
    {
      assert forall k :: 0 <= k < |h.lives| ==> h.lives[k].id == h'.lives[k].id;
      assert NoLife(h, id);
    }
  }

  lemma DispatchesKeepsInv(c: P.Codec, s: System)
    requires P.Lawful(c) && Inv(c, s)
    ensures Inv(c, Step(c, s, Dispatches))
  {
    hide P.Inv;
    hide P.Lawful;
    hide P.TakenOn;
    hide UpLog;
    hide LocalsOK;
    hide Dispatch;
    hide LifeOK;
    hide DownLog;
    hide ChansOK;
    if !s.host.stopped && s.up.link.inbox != [] {
      P.TakeNext(c, s.up);
      var up := s.up.(link := L.Take(s.up.link));
      var id := s.up.link.inbox[0].requestID;
      var n := P.TakenOn(s.up, id);
      var m := At(s.up.log, id)[n];
      ConnectIsFirst(s.client, id, n);
      DispatchLives(s.host, s.up, up, m);
      if m.Connect? {
        FirstMessage(s.host, s.up, id);
      }
      DispatchDown(s.host, s.down, m);
    }
  }

  // one message of a goroutine

  lemma ConsumedOK(l: Lifecycle, d: seq<TCPMessage>, lost: bool)
    requires LifeOK(l, d, lost) && l.phase != Done && l.queue != []
    ensures var l1 := l.(queue := l.queue[1..], consumed := l.consumed + [l.queue[0]]);
            && l1.consumed + l1.queue == l.consumed + l.queue
            && DisconnectIsLast(l1.consumed)
            && (l.phase == Waiting <==> l.consumed == [])
            && (l.phase == Waiting ==> l.queue[0].Connect?)
            && DataOf(l1.consumed) == DataOf(l.consumed) + (if l.queue[0].Data? then [l.queue[0].data] else [])
  {
    hide Subsequence;
    hide Cut;
    DataOfSnoc(l.consumed, l.queue[0]);
    StillLast(l.consumed, l.queue[0]);
    hide DataOf;
    hide DisconnectIsLast;
  }

  lemma StillLast(ms: seq<TCPMessage>, m: TCPMessage)
    requires DisconnectIsLast(ms) && (ms != [] ==> !ms[|ms| - 1].Disconnect?)
    ensures DisconnectIsLast(ms + [m])
  {
  }

  /** What LifeNext makes of the goroutine itself. */
  function LifeAfter(l: Lifecycle, dialError: Option<bytes>, room: nat): Lifecycle
  {
    var h := Host(map[], [l], false, {});
    LifeNext(h, 0, dialError, room).host.lives[0]
  }

  lemma Started(l: Lifecycle, dialError: Option<bytes>, room: nat)
    requires l.phase == Waiting && l.queue != [] && l.queue[0].Connect?
    ensures var l1 := l.(queue := l.queue[1..], consumed := l.consumed + [l.queue[0]]);
            LifeAfter(l, dialError, room)
            == if dialError.Some? then l1.(reader := Refused(dialError.value), phase := Done)
               else l1.(reader := Reading, phase := Running)
  {
  }

  lemma StartedOK(l: Lifecycle, d: seq<TCPMessage>, lost: bool, dialError: Option<bytes>, room: nat)
    requires LifeOK(l, d, lost) && l.phase == Waiting
    ensures LifeOK(LifeAfter(l, dialError, room), d, lost)
  {
    hide LifeNext;
    hide LifeAfter;
    hide Subsequence;
    ConsumedOK(l, d, lost);
    Started(l, dialError, room);
  }

  lemma Served(l: Lifecycle, dialError: Option<bytes>, room: nat)
    requires l.phase == Running && l.queue != []
    ensures var m := l.queue[0];
            var l1 := l.(queue := l.queue[1..], consumed := l.consumed + [m]);
            LifeAfter(l, dialError, room)
            == if m.Data? then
                 l1.(written := Write(l.written, m.data, room), phase := if room < |m.data| then Done else Running)
               else if m.Disconnect? then l1.(phase := Done)
               else l1
  {
  }

  lemma ServedOK(l: Lifecycle, d: seq<TCPMessage>, lost: bool, dialError: Option<bytes>, room: nat)
    requires LifeOK(l, d, lost) && l.phase == Running && l.queue != []
    ensures LifeOK(LifeAfter(l, dialError, room), d, lost)
  {
    hide LifeNext;
    hide LifeAfter;
    hide Subsequence;
    hide DataOf;
    hide Write;
    ConsumedOK(l, d, lost);
    Served(l, dialError, room);
    if l.queue[0].Data? {
      WriteCuts(DataOf(l.consumed), l.queue[0].data, room);
    }
  }

  lemma LifeAfterOK(l: Lifecycle, d: seq<TCPMessage>, lost: bool, dialError: Option<bytes>, room: nat)
    requires LifeOK(l, d, lost)
    ensures LifeOK(LifeAfter(l, dialError, room), d, lost)
  {
    if l.phase == Waiting {
      StartedOK(l, d, lost, dialError, room);
    } else if l.phase == Running && l.queue != [] {
      ServedOK(l, d, lost, dialError, room);
    } else {
      hide Subsequence;
      hide DataOf;
    }
  }

  lemma LifeNextHost(h: Host, k: nat, dialError: Option<bytes>, room: nat)
    requires k < |h.lives|
    ensures var r, l := LifeNext(h, k, dialError, room), h.lives[k];
            var l' := LifeAfter(l, dialError, room);
            && r.host == h.(lives := h.lives[k := l'],
                            reqChans := if l.phase != Done && l'.phase == Done then h.reqChans - {l.id} else h.reqChans)
            && l'.id == l.id && l'.closed == l.closed && (l.phase == Done ==> l'.phase == Done)
            && P.OnlyOn(l.id, r.sends)
  {
    assert h.lives[k := h.lives[k]] == h.lives;
  }

  lemma LifeNextChans(h: Host, k: nat, dialError: Option<bytes>, room: nat)
    requires ChansOK(h) && k < |h.lives|
    ensures ChansOK(LifeNext(h, k, dialError, room).host)
  {
    LifeNextHost(h, k, dialError, room);
    hide LifeNext;
    hide LifeAfter;
  }

  lemma LifeSends(h: Host, k: nat, d: seq<TCPMessage>, lost: bool, dialError: Option<bytes>, room: nat)
    requires k < |h.lives| && LifeOK(h.lives[k], d, lost)
    ensures DownLog(LifeAfter(h.lives[k], dialError, room))
            == DownLog(h.lives[k]) + LifeNext(h, k, dialError, room).sends
  {
    hide DownLog;
    hide LifeAfter;
    hide LifeNext;
    hide Subsequence;
    hide DataOf;
    hide Cut;
    hide DisconnectIsLast;
    SendsAfter(h, k, dialError, room);
  }

  /** Only a dial changes what there is to say. */
  lemma Says(h: Host, k: nat, dialError: Option<bytes>, room: nat)
    requires k < |h.lives|
    ensures var l, sends := h.lives[k], LifeNext(h, k, dialError, room).sends;
            var l' := LifeAfter(l, dialError, room);
            && l'.id == l.id && l'.read == l.read
            && if l.phase == Waiting && l.queue != [] && l.queue[0].Connect? then
                 if dialError.Some? then
                   l'.reader == Refused(dialError.value) && sends == [Error(l.id, dialError.value)]
                 else l'.reader == Reading && sends == []
               else l'.reader == l.reader && sends == []
  {
  }

  lemma SendsAfter(h: Host, k: nat, dialError: Option<bytes>, room: nat)
    requires k < |h.lives|
    requires h.lives[k].phase == Waiting ==> h.lives[k].read == [] && h.lives[k].reader == Unstarted
    ensures DownLog(LifeAfter(h.lives[k], dialError, room))
            == DownLog(h.lives[k]) + LifeNext(h, k, dialError, room).sends
  {
    hide LifeAfter;
    hide LifeNext;
    Says(h, k, dialError, room);
    assert DownLog(h.lives[k]) + [] == DownLog(h.lives[k]);
  }

  /** A goroutine's change that keeps its ID keeps every goroutine's invariant. */
  lemma LifeChanges(h: Host, h': Host, k: nat, up: P.Pipe)
    requires k < |h.lives| && LivesOK(h, up) && h'.lost == h.lost
    requires |h'.lives| == |h.lives| && h'.lives == h.lives[k := h'.lives[k]] && h'.lives[k].id == h.lives[k].id
    requires LifeOK(h'.lives[k], P.TakenLog(up, h.lives[k].id), h.lives[k].id in h.lost)
    ensures LivesOK(h', up)
  {
    hide LifeOK;
    hide P.TakenLog;
    SameNoLife(h, h');
  }

  lemma SameNoLife(h: Host, h': Host)
    requires |h.lives| == |h'.lives| && forall k :: 0 <= k < |h.lives| ==> h'.lives[k].id == h.lives[k].id
    ensures forall id: uint32 :: NoLife(h, id) <==> NoLife(h', id)
  {
    forall id: uint32
      ensures NoLife(h, id) <==> NoLife(h', id)
    {
      if NoLife(h', id) {
        assert forall k :: 0 <= k < |h.lives| ==> h.lives[k].id == h'.lives[k].id;
      }
    }
  }

  /** A goroutine's log grew by what was posted for it. */
  lemma DownPosted(h: Host, h': Host, k: nat, down: P.Pipe, down': P.Pipe, ms: seq<TCPMessage>)
    requires k < |h.lives| && ChansOK(h) && DownOK(h, down)
    requires |h'.lives| == |h.lives| && h'.lives == h.lives[k := h'.lives[k]] && h'.lives[k].id == h.lives[k].id
    requires DownLog(h'.lives[k]) == DownLog(h.lives[k]) + ms && P.Extends(down, down', h.lives[k].id, ms)
    ensures DownOK(h', down')
  {
    hide DownLog;
    hide P.TakenOn;
    SameNoLife(h, h');
  }

  lemma LivesKeepsInv(c: P.Codec, s: System, k: nat, dialError: Option<bytes>, room: nat)
    requires P.Lawful(c) && Inv(c, s) && Fits(Lives(k, dialError, room))
    ensures Inv(c, Step(c, s, Lives(k, dialError, room)))
  {
    hide P.Inv;
    hide P.Lawful;
    hide P.PostAll;
    hide P.TakenLog;
    hide UpLog;
    hide DownLog;
    hide LifeOK;
    hide LifeAfter;
    hide LocalsOK;
    if k < |s.host.lives| {
      var l := s.host.lives[k];
      var r := LifeNext(s.host, k, dialError, room);
      var d := P.TakenLog(s.up, l.id);
      assert LifeOK(l, d, l.id in s.host.lost);
      PostableSends(s.host, k, dialError, room);
      hide LifeNext;
      LifeNextHost(s.host, k, dialError, room);
      LifeNextChans(s.host, k, dialError, room);
      LifeAfterOK(l, d, l.id in s.host.lost, dialError, room);
      LifeSends(s.host, k, d, l.id in s.host.lost, dialError, room);
      HostPosts(c, s, l.id, r.sends);
      LifeChanges(s.host, r.host, k, s.up);
      DownPosted(s.host, r.host, k, s.down, P.PostAll(c, s.down, r.sends), r.sends);
    }
  }

  lemma PostableSends(h: Host, k: nat, dialError: Option<bytes>, room: nat)
    requires k < |h.lives| && (dialError.Some? ==> |dialError.value| <= READ_BUFFER)
    ensures P.AllPostable(LifeNext(h, k, dialError, room).sends)
  {
  }

  lemma TargetReadOK(h: Host, k: nat, r: ReadResult, refused: bool, d: seq<TCPMessage>, lost: bool)
    requires k < |h.lives| && LifeOK(h.lives[k], d, lost) && |r.chunk| <= READ_BUFFER
    ensures var q, l := TargetRead(h, k, r, refused), h.lives[k];
            var l' := q.host.lives[k];
            && q.host == h.(lives := h.lives[k := l']) && LifeOK(l', d, lost)
            && l'.id == l.id && l'.phase == l.phase && l'.closed == l.closed
            && DownLog(l') == DownLog(l) + q.sends && P.OnlyOn(l.id, q.sends)
            && P.AllPostable(q.sends)
  {
    hide Subsequence;
    hide DataOf;
    hide Cut;
    hide DisconnectIsLast;
    var l := h.lives[k];
    if l.reader == Reading {
      DatasSnoc(l.id, l.read, r.chunk);
    }
    assert h.lives[k := l] == h.lives;
  }

  lemma ReadsTargetKeepsInv(c: P.Codec, s: System, k: nat, r: ReadResult, refusedAt: Option<nat>)
    requires P.Lawful(c) && Inv(c, s) && Fits(ReadsTarget(k, r, refusedAt)) && k < |s.host.lives|
    ensures Inv(c, Step(c, s, ReadsTarget(k, r, refusedAt)))
  {
    hide TargetRead;
    hide P.PostAll;
    hide Inv;
    hide P.Break;
    var id := s.host.lives[k].id;
    var q := TargetRead(s.host, k, r, refusedAt.Some?);
    var s1 := s.(host := q.host, down := P.PostAll(c, s.down, q.sends));
    TargetPosts(c, s, k, r, refusedAt.Some?);
    if refusedAt.Some? {
      BreaksKeepsInv(c, s1, false, id, |At(s.down.link.wire, id)| + refusedAt.value);
    }
  }

  lemma TargetPosts(c: P.Codec, s: System, k: nat, r: ReadResult, refused: bool)
    requires P.Lawful(c) && Inv(c, s) && |r.chunk| <= READ_BUFFER && k < |s.host.lives|
    ensures var q := TargetRead(s.host, k, r, refused);
            Inv(c, s.(host := q.host, down := P.PostAll(c, s.down, q.sends)))
  {
    hide P.Inv;
    hide P.Lawful;
    hide P.PostAll;
    hide P.TakenLog;
    hide UpLog;
    hide DownLog;
    hide LifeOK;
    hide LocalsOK;
    hide TargetRead;
    var l := s.host.lives[k];
    var q := TargetRead(s.host, k, r, refused);
    var d := P.TakenLog(s.up, l.id);
    assert LifeOK(l, d, l.id in s.host.lost);
    TargetReadOK(s.host, k, r, refused, d, l.id in s.host.lost);
    HostPosts(c, s, l.id, q.sends);
    LifeChanges(s.host, q.host, k, s.up);
    DownPosted(s.host, q.host, k, s.down, P.PostAll(c, s.down, q.sends), q.sends);
  }

  lemma BreaksKeepsInv(c: P.Codec, s: System, upward: bool, id: uint32, n: nat)
    requires Inv(c, s)
    ensures Inv(c, Step(c, s, Breaks(upward, id, n)))
  {
    hide P.Inv;
    hide P.TakenLog;
    hide LifeOK;
    hide UpLog;
    hide DownLog;
    hide WrittenOK;
    hide ChansOK;
    hide P.Break;
    if id != 0 {
      if upward {
        P.BreakKeepsInv(c, s.up, id, n);
        SameTaken(c, s.up, P.Break(s.up, id, n), id, []);
        SameLives(s.host, s.up, P.Break(s.up, id, n));
      } else {
        P.BreakKeepsInv(c, s.down, id, n);
        SameTaken(c, s.down, P.Break(s.down, id, n), id, []);
        SameLocals(s.client, s.down, P.Break(s.down, id, n));
      }
    }
  }

  lemma StopHostOK(h: Host, up: P.Pipe, down: P.Pipe)
    requires ChansOK(h) && LivesOK(h, up) && DownOK(h, down)
    ensures LivesOK(StopHost(h), up) && DownOK(StopHost(h), down)
  {
    hide P.TakenLog;
    hide LifeOK;
    hide DownLog;
    var h' := StopHost(h);
    SameNoLife(h, h');
    forall k | 0 <= k < |h.lives|
      ensures LifeOK(h'.lives[k], P.TakenLog(up, h'.lives[k].id), h'.lives[k].id in h'.lost)
      ensures DownLog(h'.lives[k]) == DownLog(h.lives[k])
    {
      assert LifeOK(h.lives[k], P.TakenLog(up, h.lives[k].id), h.lives[k].id in h.lost);
      ClosedOK(h.lives[k], h'.lives[k], P.TakenLog(up, h.lives[k].id), h.lives[k].id in h.lost);
    }
  }

  lemma StopChans(h: Host)
    requires ChansOK(h)
    ensures ChansOK(StopHost(h))
  {
    var h' := StopHost(h);
    assert forall k :: 0 <= k < |h.lives| ==> h'.lives[k].id == h.lives[k].id && h'.lives[k].phase == h.lives[k].phase;
  }

  lemma StopsKeepsInv(c: P.Codec, s: System)
    requires Inv(c, s)
    ensures Inv(c, Step(c, s, Stops))
  {
    hide P.Inv;
    hide LivesOK;
    hide DownOK;
    hide UpOK;
    hide LocalsOK;
    hide ChansOK;
    hide StopHost;
    StopHostOK(s.host, s.up, s.down);
    StopChans(s.host);
  }

  lemma ClosedOK(l: Lifecycle, l': Lifecycle, d: seq<TCPMessage>, lost: bool)
    requires LifeOK(l, d, lost) && l' == l.(closed := l'.closed)
    ensures LifeOK(l', d, lost) && DownLog(l') == DownLog(l)
  {
    hide Subsequence;
    hide DataOf;
    hide Cut;
  }

  lemma TransportKeepsInv(c: P.Codec, s: System, a: Action)
    requires Inv(c, s) && (a.FrameUp? || a.FrameDown? || a.Heartbeats?)
    ensures Inv(c, Step(c, s, a))
  {
    hide P.Inv;
    hide P.TakenLog;
    hide LifeOK;
    hide UpLog;
    hide DownLog;
    hide WrittenOK;
    hide ChansOK;
    hide L.Deliver;
    hide L.Ping;
    var id: uint32 := if a.Heartbeats? then 0 else a.id;
    var s' := Step(c, s, a);
    P.TransportKeepsInv(c, s.up, id);
    P.TransportKeepsInv(c, s.down, id);
    if !a.FrameDown? {
      SameTaken(c, s.up, s'.up, id, []);
      SameLives(s.host, s.up, s'.up);
    }
    if !a.FrameUp? {
      SameTaken(c, s.down, s'.down, id, []);
      SameLocals(s.client, s.down, s'.down);
    }
  }

  lemma Impossible(c: P.Codec, s: System, a: Action)
    requires a.ReadsTarget? && a.k >= |s.host.lives|
    ensures Step(c, s, a) == s
  {
  }

  /** Every step keeps the invariant, as long as the 32-bit connection counter does not wrap. */
  lemma StepKeepsInv(c: P.Codec, s: System, a: Action)
    requires P.Lawful(c) && Inv(c, s) && Fits(a) && (a.Accepts? ==> s.client.requestIDCounter + 1 < TWO32)
    ensures Inv(c, Step(c, s, a))
  {
    hide Inv;
    hide Step;
    match a
    case Accepts(address) => AcceptsKeepsInv(c, s, address);
    case ReadsLocal(id, r) => ReadsLocalKeepsInv(c, s, id, r);
    case FrameUp(_) => TransportKeepsInv(c, s, a);
    case Dispatches => DispatchesKeepsInv(c, s);
    case Lives(k, e, room) => LivesKeepsInv(c, s, k, e, room);
    case ReadsTarget(k, r, refusedAt) =>
      if k < |s.host.lives| {
        ReadsTargetKeepsInv(c, s, k, r, refusedAt);
      } else {
        assert Step(c, s, a) == s by { Impossible(c, s, a); }
      }
    case FrameDown(_) => TransportKeepsInv(c, s, a);
    case ClientTakes(room) => ClientTakesKeepsInv(c, s, room);
    case Heartbeats => TransportKeepsInv(c, s, a);
    case Breaks(upward, id, n) => BreaksKeepsInv(c, s, upward, id, n);
    case Stops => StopsKeepsInv(c, s);
  }

  // ---- all runs

  ghost function Run(c: P.Codec, run: seq<Action>): System
  {
    if run == [] then Init() else Step(c, Run(c, run[..|run| - 1]), run[|run| - 1])
  }

  /** Fewer than 2^32 connections are accepted and the environment's texts fit the read buffer. */
  ghost predicate Allowed(run: seq<Action>)
  {
    Connections(run) < TWO32 && forall i :: 0 <= i < |run| ==> Fits(run[i])
  }

  function Connections(run: seq<Action>): nat
  {
    if run == [] then 0 else Connections(run[..|run| - 1]) + (if run[|run| - 1].Accepts? then 1 else 0)
  }

  lemma InitInv(c: P.Codec)
    ensures Inv(c, Init())
  {
    hide Chunks;
  }

  lemma CounterStep(c: P.Codec, s: System, a: Action)
    ensures var id' := Step(c, s, a).client.requestIDCounter;
            id' == if a.Accepts? then (s.client.requestIDCounter + 1) % TWO32 else s.client.requestIDCounter
  {
    hide P.PostAll;
    hide L.Deliver;
  }

  lemma {:induction false} RunKeepsInv(c: P.Codec, run: seq<Action>)
    requires P.Lawful(c) && Allowed(run)
    ensures Inv(c, Run(c, run)) && Run(c, run).client.requestIDCounter == Connections(run)
  {
    hide Inv;
    hide Step;
    hide P.Lawful;
    if run == [] {
      InitInv(c);
    } else {
      var n := |run| - 1;
      RunKeepsInv(c, run[..n]);
      CounterStep(c, Run(c, run[..n]), run[n]);
      StepKeepsInv(c, Run(c, run[..n]), run[n]);
    }
  }

  lemma DataOfDatas(id: uint32, chunks: seq<bytes>)
    ensures DataOf(Datas(id, chunks)) == chunks
  {
    if chunks != [] {
      var n := |chunks| - 1;
      DataOfDatas(id, chunks[..n]);
      DatasSnoc(id, chunks[..n], chunks[n]);
      assert chunks == chunks[..n] + [chunks[n]];
      DataOfSnoc(Datas(id, chunks[..n]), Data(id, chunks[n]));
    }
  }

  lemma {:induction false} DataOfAppend(a: seq<TCPMessage>, b: seq<TCPMessage>)
    ensures DataOf(a + b) == DataOf(a) + DataOf(b)
  {
    if b == [] {
      assert a + b == a;
    } else {
      InitOfAppend(a, b);
      DataOfAppend(a, b[..|b| - 1]);
    }
  }

  /** The data in a side's log is what it read. */
  lemma DataOfUpLog(c: Client, id: uint32)
    requires id in c.conns
    ensures DataOf(UpLog(c, id)) == c.conns[id].read
  {
    var conn := c.conns[id];
    var head, tail := [Connect(id, conn.address)], if conn.reading then [] else [Disconnect(id)];
    DataOfDatas(id, conn.read);
    DataOfAppend(head, Datas(id, conn.read));
    DataOfAppend(head + Datas(id, conn.read), tail);
    assert head[..0] == [] && DataOf(head) == [];
    assert tail == [] || (tail[..0] == [] && DataOf(tail) == []);
  }

  lemma DataOfDownLog(l: Lifecycle, d: seq<TCPMessage>, lost: bool)
    requires LifeOK(l, d, lost)
    ensures DataOf(DownLog(l)) <= l.read
  {
    DataOfDatas(l.id, l.read);
    match l.reader
    case Finished => DataOfSnoc(Datas(l.id, l.read), Disconnect(l.id));
    case Refused(e) =>
      assert [Error(l.id, e)][..0] == [];
    case _ =>
  }

  /** What the goroutine of connection id has written to its target. */
  lemma WrittenToTarget(c: P.Codec, s: System, k: nat)
    requires Inv(c, s) && k < |s.host.lives|
    ensures var l := s.host.lives[k];
            && l.id in s.client.conns
            && Cut(l.written, DataOf(l.consumed))
            && Subsequence(DataOf(l.consumed), s.client.conns[l.id].read)
            && (l.id !in s.host.lost ==> DataOf(l.consumed) <= s.client.conns[l.id].read)
  {
    hide P.Inv;
    var l := s.host.lives[k];
    var d := P.TakenLog(s.up, l.id);
    assert LifeOK(l, d, l.id in s.host.lost);
    assert d <= UpLog(s.client, l.id);
    assert l.id in s.client.conns;
    var all := UpLog(s.client, l.id);
    DataOfUpLog(s.client, l.id);
    hide UpLog;
    SubsequenceShrink(l.consumed + l.queue, l.consumed, d);
    SubsequenceGrow(l.consumed, d, all);
    DataOfSubsequence(l.consumed, all);
    if l.id !in s.host.lost {
      DataOfPrefix(l.consumed, all);
    }
  }

  lemma WrittenToLocal(c: P.Codec, s: System, k: nat)
    requires Inv(c, s) && k < |s.host.lives|
    ensures var l := s.host.lives[k];
            l.id in s.client.conns && Flatten(s.client.conns[l.id].written) <= Flatten(l.read)
  {
    WrittenToTarget(c, s, k);
    hide P.Inv;
    hide UpLog;
    hide ChansOK;
    hide UpOK;
    hide Subsequence;
    hide Cut;
    hide LifeOK;
    hide DownLog;
    hide WrittenOK;
    var l := s.host.lives[k];
    DataOfDownLog(l, P.TakenLog(s.up, l.id), l.id in s.host.lost);
    WrittenIsPrefix(s.client.conns[l.id], l.id in s.client.activeConns, P.TakenLog(s.down, l.id), DownLog(l));
    FlattenPrefix(DataOf(DownLog(l)), l.read);
  }

  lemma WrittenIsPrefix(conn: LocalConn, active: bool, d: seq<TCPMessage>, all: seq<TCPMessage>)
    requires WrittenOK(conn, active, d) && d <= all
    ensures Flatten(conn.written) <= Flatten(DataOf(all))
  {
    hide Cut;
    var n: nat :| n <= |DataOf(d)| && Cut(conn.written, DataOf(d)[..n]);
    DataOfPrefix(d, all);
    CutFlattens(conn.written, DataOf(d)[..n]);
    FlattenPrefix(DataOf(d)[..n], DataOf(all));
  }

  /**
   Integrity of every connection in every reachable state. The k-th goroutine's connection is the only
   one of its ID. What it has written to the target is, but for a last partial write, a subsequence of the
   chunks read from the local connection of that ID, and byte for byte a prefix if its queue never
   overflowed; what the local connection has been written is a prefix of what was read from the target.
   */
  lemma RecordedIntegrity(c: P.Codec, run: seq<Action>, k: nat)
    requires P.Lawful(c) && Allowed(run) && k < |Run(c, run).host.lives|
    ensures var s := Run(c, run);
            var l := s.host.lives[k];
            && l.id in s.client.conns
            && (forall i :: 0 <= i < |s.host.lives| && i != k ==> s.host.lives[i].id != l.id)
            && (exists chunks :: Cut(l.written, chunks) && Subsequence(chunks, s.client.conns[l.id].read))
            && (l.id !in s.host.lost ==> Flatten(l.written) <= Flatten(s.client.conns[l.id].read))
            && Flatten(s.client.conns[l.id].written) <= Flatten(l.read)
  {
    hide P.Lawful;
    hide Run;
    hide Flatten;
    hide P.Inv;
    hide UpOK;
    hide LivesOK;
    hide DownOK;
    hide LocalsOK;
    RunKeepsInv(c, run);
    var s := Run(c, run);
    var l := s.host.lives[k];
    WrittenToTarget(c, s, k);
    WrittenToLocal(c, s, k);
    var chunks := DataOf(l.consumed);
    if l.id !in s.host.lost {
      CutFlattens(l.written, chunks);
      FlattenPrefix(chunks, s.client.conns[l.id].read);
    }
  }

  /** A connection that no goroutine serves has been written nothing. */
  lemma UnservedGetsNothing(c: P.Codec, run: seq<Action>, id: uint32)
    requires P.Lawful(c) && Allowed(run)
    requires id in Run(c, run).client.conns && NoLife(Run(c, run).host, id)
    ensures Flatten(Run(c, run).client.conns[id].written) == []
  {
    hide P.Lawful;
    hide Run;
    hide P.Inv;
    hide UpOK;
    hide LivesOK;
    RunKeepsInv(c, run);
    var s := Run(c, run);
    assert At(s.down.log, id) == [];
    assert WrittenOK(s.client.conns[id], id in s.client.activeConns, []);
    assert DataOf([]) == [];
    var n: nat :| n <= |DataOf([])| && Cut(s.client.conns[id].written, DataOf([])[..n]);
  }

  lemma AllTakenUp(c: P.Codec, s: System, id: uint32)
    requires Inv(c, s) && id != 0 && At(s.up.link.wire, id) == [] && s.up.link.inbox == [] && id !in s.up.link.cut
    ensures P.TakenLog(s.up, id) == UpLog(s.client, id)
  {
    hide L.Inv;
    hide UpLog;
    hide LivesOK;
    hide DownOK;
    hide LocalsOK;
    assert P.Logged(c, s.up, id);
    L.QuietMeansAllTaken(s.up.link, id);
  }

  lemma AllTakenDown(c: P.Codec, s: System, k: nat)
    requires Inv(c, s) && k < |s.host.lives|
    requires At(s.down.link.wire, s.host.lives[k].id) == [] && s.down.link.inbox == []
    requires s.host.lives[k].id !in s.down.link.cut
    ensures P.TakenLog(s.down, s.host.lives[k].id) == DownLog(s.host.lives[k])
  {
    hide L.Inv;
    hide DownLog;
    hide LivesOK;
    hide UpOK;
    hide LocalsOK;
    assert P.Logged(c, s.down, s.host.lives[k].id);
    L.QuietMeansAllTaken(s.down.link, s.host.lives[k].id);
  }

  lemma RunningLog(l: Lifecycle, d: seq<TCPMessage>, lost: bool)
    requires LifeOK(l, d, lost) && l.phase == Running
    ensures DataOf(DownLog(l)) == l.read && l.written == DataOf(l.consumed)
    ensures !lost && l.queue == [] ==> l.consumed == d
  {
    DataOfDatas(l.id, l.read);
    DataOfSnoc(Datas(l.id, l.read), Disconnect(l.id));
    assert l.queue == [] ==> l.consumed + l.queue == l.consumed;
  }

  /**
   Nothing is held back: once the frames of a connection that was not cut have all arrived and its messages have
   been handled, a goroutine that still runs and never overflowed has written every chunk read, and an active
   local connection has been written every chunk read from the target.
   */
  lemma RecordedArrives(c: P.Codec, run: seq<Action>, k: nat)
    requires P.Lawful(c) && Allowed(run) && k < |Run(c, run).host.lives|
    requires Run(c, run).host.lives[k].phase == Running
    ensures var s := Run(c, run);
            var l := s.host.lives[k];
            && l.id in s.client.conns
            && (l.id !in s.up.link.cut && At(s.up.link.wire, l.id) == [] && s.up.link.inbox == []
                && l.queue == [] && l.id !in s.host.lost ==>
                  l.written == s.client.conns[l.id].read)
            && (l.id !in s.down.link.cut && At(s.down.link.wire, l.id) == [] && s.down.link.inbox == []
                && l.id in s.client.activeConns ==>
                  s.client.conns[l.id].written == l.read)
  {
    hide P.Lawful;
    hide Run;
    hide P.Inv;
    hide UpLog;
    hide DownLog;
    RunKeepsInv(c, run);
    var s := Run(c, run);
    var l := s.host.lives[k];
    WrittenToTarget(c, s, k);
    DataOfUpLog(s.client, l.id);
    var d := P.TakenLog(s.up, l.id);
    assert LifeOK(l, d, l.id in s.host.lost);
    RunningLog(l, d, l.id in s.host.lost);
    assert WrittenOK(s.client.conns[l.id], l.id in s.client.activeConns, P.TakenLog(s.down, l.id));
    hide LifeOK;
    hide Cut;
    hide Subsequence;
    if l.id !in s.up.link.cut && At(s.up.link.wire, l.id) == [] && s.up.link.inbox == [] {
      AllTakenUp(c, s, l.id);
    }
    if l.id !in s.down.link.cut && At(s.down.link.wire, l.id) == [] && s.down.link.inbox == [] {
      AllTakenDown(c, s, k);
    }
  }

  /**
   The host's demultiplexer: what a goroutine has consumed and still has queued starts with its connect and
   is, in order, part of what the client sent on its ID; it consumes nothing after a disconnect.
   */
  lemma HostQueues(c: P.Codec, run: seq<Action>, k: nat)
    requires P.Lawful(c) && Allowed(run) && k < |Run(c, run).host.lives|
    ensures var s := Run(c, run);
            var l := s.host.lives[k];
            var fed := l.consumed + l.queue;
            && l.id in s.client.conns && fed != [] && fed[0] == Connect(l.id, s.client.conns[l.id].address)
            && Subsequence(fed, UpLog(s.client, l.id))
            && (l.id !in s.host.lost ==> fed <= UpLog(s.client, l.id))
            && (forall i :: 0 <= i < |l.consumed| && l.consumed[i].Disconnect? ==>
                  i == |l.consumed| - 1 && l.phase == Done)
            && (l.closed ==> s.host.stopped)
  {
    hide P.Lawful;
    hide Run;
    hide P.Inv;
    hide DownOK;
    hide LocalsOK;
    hide UpLog;
    hide LifeOK;
    hide Subsequence;
    RunKeepsInv(c, run);
    var s := Run(c, run);
    var l := s.host.lives[k];
    var d := P.TakenLog(s.up, l.id);
    var all := UpLog(s.client, l.id);
    assert LifeOK(l, d, l.id in s.host.lost);
    assert d <= all;
    hide P.TakenLog;
    FedInOrder(l, d, all, l.id in s.host.lost);
    UpStarts(s.client, l.id);
  }

  lemma FedInOrder(l: Lifecycle, d: seq<TCPMessage>, all: seq<TCPMessage>, lost: bool)
    requires LifeOK(l, d, lost) && d <= all
    ensures var fed := l.consumed + l.queue;
            && fed != [] && all != [] && fed[0] == all[0]
            && Subsequence(fed, all) && (!lost ==> fed <= all)
            && forall i :: 0 <= i < |l.consumed| && l.consumed[i].Disconnect? ==>
                 i == |l.consumed| - 1 && l.phase == Done
  {
    hide DataOf;
    hide Cut;
    SubsequenceGrow(l.consumed + l.queue, d, all);
    hide Subsequence;
  }

  /** What the client sends on an ID starts with the connect. */
  lemma UpStarts(c: Client, id: uint32)
    requires UpLog(c, id) != []
    ensures id in c.conns && UpLog(c, id)[0] == Connect(id, c.conns[id].address)
  {
  }

  /** No message is put into a queue after it was closed. */
  lemma NoSendAfterClose(c: P.Codec, run: seq<Action>, a: Action, k: nat)
    requires P.Lawful(c) && Allowed(run) && k < |Run(c, run).host.lives| && Run(c, run).host.lives[k].closed
    ensures var h, h' := Run(c, run).host, Step(c, Run(c, run), a).host;
            k < |h'.lives| && (h'.lives[k].queue == h.lives[k].queue
                               || (h.lives[k].queue != [] && h'.lives[k].queue == h.lives[k].queue[1..]))
  {
    hide P.Lawful;
    hide Run;
    hide P.PostAll;
    hide L.Deliver;
    hide LivesOK;
    hide DownOK;
    hide UpOK;
    hide LocalsOK;
    hide P.Inv;
    RunKeepsInv(c, run);
  }

  // ---- the end of a local connection

  /** In every reachable state a local connection is active exactly until its local end is read or it is closed. */
  lemma ActiveExactly(c: P.Codec, run: seq<Action>, id: uint32)
    requires P.Lawful(c) && Allowed(run) && id in Run(c, run).client.conns
    ensures var client := Run(c, run).client;
            id in client.activeConns <==> client.conns[id].reading && !client.conns[id].closed
  {
    RunKeepsInv(c, run);
    hide Run;
    hide P.Inv;
    hide ChansOK;
    hide UpOK;
    hide LivesOK;
    hide DownOK;
    hide LocalsOK;
  }

  /** The connection is no longer active, and stands as it did. */
  ghost predicate Over(before: Client, after: Client, id: uint32)
  {
    && id in before.conns && id in after.conns && id !in after.activeConns
    && after.conns[id].written == before.conns[id].written && after.conns[id].closed == before.conns[id].closed
    && (!before.conns[id].reading ==> !after.conns[id].reading)
  }

  lemma ClientIsOK(c: P.Codec, s: System)
    requires Inv(c, s)
    ensures ClientOK(s.client)
  {
  }

  lemma StaysOver(c: P.Codec, s: System, a: Action, id: uint32)
    requires ClientOK(s.client) && id in s.client.conns && id !in s.client.activeConns
    requires a.Accepts? ==> s.client.requestIDCounter + 1 < TWO32
    ensures Over(s.client, Step(c, s, a).client, id)
  {
    hide P.PostAll;
    if a.Accepts? {
      AcceptLog(s.client, a.address);
    }
    hide UpLog;
  }

  /**
   Once a local connection is no longer active it is over for good: everything that is read from its target
   after that is discarded, and if it was its local end that came first its socket is never closed.
   */
  lemma {:induction false} OverForever(c: P.Codec, run: seq<Action>, more: seq<Action>, id: uint32)
    requires P.Lawful(c) && Allowed(run + more)
    requires id in Run(c, run).client.conns && id !in Run(c, run).client.activeConns
    ensures Over(Run(c, run).client, Run(c, run + more).client, id)
  {
    hide P.Lawful;
    hide Inv;
    hide Step;
    if more == [] {
      assert run + more == run;
    } else {
      InitOfAppend(run, more);
      var n := |run + more| - 1;
      var before := (run + more)[..n];
      assert Allowed(before);
      OverForever(c, run, more[..|more| - 1], id);
      RunKeepsInv(c, before);
      ClientIsOK(c, Run(c, before));
      StaysOver(c, Run(c, before), (run + more)[n], id);
    }
  }
}
