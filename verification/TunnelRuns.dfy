/**
 The tunnel from outside: what every connection has read, written, queued, lost and closed after any run, told from
 the run's actions and the messages that they take, and the integrity of its streams in these terms.
 */
module TunnelRuns {
  import opened Bytes
  import opened Framing
  import opened TcpProxy
  import opened Tunnel
  import L = Link
  import P = Pipe

  /** The message that StartHost takes next, if there is one and it can be parsed. */
  ghost function HostMessage(c: P.Codec, s: System): Option<TCPMessage>
  {
    if s.host.stopped || s.up.link.inbox == [] then None else c.unmarshal(s.up.link.inbox[0].data)
  }

  /** The message that handleClientMessages takes next. */
  ghost function ClientTaking(c: P.Codec, s: System): Option<TCPMessage>
  {
    if s.down.link.inbox == [] then None else c.unmarshal(s.down.link.inbox[0].data)
  }

  lemma ClientAfter(c: P.Codec, s: System, a: Action)
    ensures Step(c, s, a).client ==
            match a
            case Accepts(address) => AcceptConn(s.client, address).client
            case ReadsLocal(id, r) => LocalRead(s.client, id, r).client
            case ClientTakes(room) =>
              var m := ClientTaking(c, s);
              if m.Some? then ClientMessage(s.client, m.value, room) else s.client
            case _ => s.client
  {
    hide P.PostAll;
    hide L.Deliver;
    hide L.Take;
    hide ClientMessage;
  }

  lemma HostAfter(c: P.Codec, s: System, a: Action)
    ensures Step(c, s, a).host ==
            match a
            case Dispatches =>
              var m := HostMessage(c, s);
              if m.Some? then Dispatch(s.host, m.value) else s.host
            case Lives(k, e, room) => if k < |s.host.lives| then LifeNext(s.host, k, e, room).host else s.host
            case ReadsTarget(k, r, refusedAt) =>
              if k < |s.host.lives| then TargetRead(s.host, k, r, refusedAt.Some?).host else s.host
            case Stops => StopHost(s.host)
            case _ => s.host
  {
    hide P.PostAll;
    hide L.Deliver;
    hide L.Take;
    hide Dispatch;
    hide LifeNext;
    hide TargetRead;
    hide StopHost;
  }

  // ---- what has been read locally

  /** The connection has been accepted: IDs are given out in order. */
  predicate Accepted(run: seq<Action>, id: uint32)
  {
    1 <= id <= Connections(run)
  }

  /** A read of the connection has failed. */
  predicate Failed(run: seq<Action>, id: uint32)
  {
    run != [] &&
    var before, a := run[..|run| - 1], run[|run| - 1];
    Failed(before, id) || (a.ReadsLocal? && a.id == id && a.r.err && Accepted(before, id))
  }

  /** What conn.Read has returned for the connection, up to and including the read that failed. */
  function LocalChunks(run: seq<Action>, id: uint32): seq<bytes>
  {
    if run == [] then []
    else
      var before, a := run[..|run| - 1], run[|run| - 1];
      LocalChunks(before, id)
      + (if a.ReadsLocal? && a.id == id && a.r.chunk != [] && Accepted(before, id) && !Failed(before, id) then
           [a.r.chunk]
         else [])
  }

  /** The client's record of a connection is what has been read from it. */
  ghost predicate AsRead(client: Client, run: seq<Action>, id: uint32)
  {
    && (id in client.conns <==> Accepted(run, id))
    && (if id in client.conns then
          client.conns[id].read == LocalChunks(run, id) && (client.conns[id].reading <==> !Failed(run, id))
        else LocalChunks(run, id) == [] && !Failed(run, id))
  }

  lemma {:induction false} ReadExactly(c: P.Codec, run: seq<Action>, id: uint32)
    requires P.Lawful(c) && Allowed(run)
    ensures AsRead(Run(c, run).client, run, id)
  {
    hide P.Lawful;
    hide Inv;
    hide Step;
    if run != [] {
      var n := |run| - 1;
      assert Allowed(run[..n]);
      ReadExactly(c, run[..n], id);
      RunKeepsInv(c, run[..n]);
      ClientIsOK(c, Run(c, run[..n]));
      ClientAfter(c, Run(c, run[..n]), run[n]);
      ReadStep(c, Run(c, run[..n]), run, id);
      hide AsRead;
    }
  }

  /** The next connection that is accepted. */
  predicate IsNext(client: Client, a: Action, id: uint32)
  {
    a.Accepts? && id == client.requestIDCounter + 1
  }

  lemma ClientReads(c: P.Codec, s: System, a: Action, id: uint32)
    requires ClientOK(s.client) && (a.Accepts? ==> s.client.requestIDCounter + 1 < TWO32)
    ensures var before, after := s.client.conns, Step(c, s, a).client.conns;
            && (id in after <==> id in before || IsNext(s.client, a, id))
            && (id in before ==>
                  && after[id].read == before[id].read
                                       + (if a.ReadsLocal? && a.id == id && a.r.chunk != [] && before[id].reading then
                                            [a.r.chunk]
                                          else [])
                  && (after[id].reading <==> before[id].reading && !(a.ReadsLocal? && a.id == id && a.r.err)))
            && (id in after && id !in before ==> after[id].read == [] && after[id].reading)
  {
    ClientAfter(c, s, a);
    match a
    case ClientTakes(room) =>
      var m := ClientTaking(c, s);
      if m.Some? {
        MessageReadsNothing(s.client, m.value, room, id);
      }
      hide ClientMessage;
    case _ =>
    hide Step;
    hide ClientTaking;
  }

  lemma MessageReadsNothing(client: Client, m: TCPMessage, room: nat, id: uint32)
    ensures var before, after := client.conns, ClientMessage(client, m, room).conns;
            && (id in after <==> id in before)
            && (id in before ==> after[id].read == before[id].read && after[id].reading == before[id].reading)
  {
  }

  lemma ReadStep(c: P.Codec, s: System, run: seq<Action>, id: uint32)
    requires run != [] && Allowed(run) && ClientOK(s.client) && AsRead(s.client, run[..|run| - 1], id)
    requires s.client.requestIDCounter == Connections(run[..|run| - 1])
    ensures AsRead(Step(c, s, run[|run| - 1]).client, run, id)
  {
    ClientReads(c, s, run[|run| - 1], id);
    hide Step;
  }

  // ---- what closes a local connection

  /** A disconnect, an error, or data of which conn.Write takes only `room` bytes. */
  predicate Shuts(m: TCPMessage, room: nat)
  {
    m.Disconnect? || m.Error? || (m.Data? && room < |m.data|)
  }

  /** The client has taken such a message on the connection, before any local read of it failed. */
  ghost predicate ShutByMessage(c: P.Codec, run: seq<Action>, id: uint32)
  {
    run != [] &&
    var before, a := run[..|run| - 1], run[|run| - 1];
    || ShutByMessage(c, before, id)
    || (a.ClientTakes? && !Failed(before, id)
        && var m := ClientTaking(c, Run(c, before));
           m.Some? && m.value.requestID == id && Shuts(m.value, a.room))
  }

  /** As much of the data as conn.Write takes. */
  function Taken(data: bytes, room: nat): bytes
  {
    if room < |data| then data[..room] else data
  }

  /** What conn.Write has taken for the connection, of the data that came while it was active. */
  ghost function LocalWrites(c: P.Codec, run: seq<Action>, id: uint32): seq<bytes>
  {
    if run == [] then []
    else
      var before, a := run[..|run| - 1], run[|run| - 1];
      var m := ClientTaking(c, Run(c, before));
      LocalWrites(c, before, id)
      + (if a.ClientTakes? && m.Some? && m.value.Data? && m.value.requestID == id
            && !Failed(before, id) && !ShutByMessage(c, before, id) then [Taken(m.value.data, a.room)]
         else [])
  }

  ghost predicate AsShut(client: Client, shut: bool, failed: bool, writes: seq<bytes>, id: uint32)
  {
    && (if id in client.conns then
          (client.conns[id].closed <==> shut) && client.conns[id].written == writes
        else writes == [])
    && (shut ==> id in client.conns)
    && (id in client.activeConns <==> id in client.conns && !failed && !shut)
  }

  /** A message that the client takes is for a connection that was accepted. */
  lemma TakingIsAccepted(c: P.Codec, s: System)
    requires P.Lawful(c) && Inv(c, s) && ClientTaking(c, s).Some?
    ensures ClientTaking(c, s).value.requestID in s.client.conns
  {
    P.TakeNext(c, s.down);
    var id := s.down.link.inbox[0].requestID;
    if id !in s.client.conns {
      NotAccepted(c, s, id);
    }
    hide P.Inv;
    hide P.Lawful;
    hide UpOK;
    hide LivesOK;
    hide LocalsOK;
    hide ChansOK;
    hide L.Take;
  }

  /**
   In every reachable state: a connection's socket has been closed exactly if the client took a disconnect, an
   error or data that it could not write in full before a local read failed, and the connection is active exactly
   if neither has happened. It has been written what came for it while it was active.
   */
  lemma {:induction false} ClosedExactly(c: P.Codec, run: seq<Action>, id: uint32)
    requires P.Lawful(c) && Allowed(run)
    ensures AsShut(Run(c, run).client, ShutByMessage(c, run, id), Failed(run, id), LocalWrites(c, run, id), id)
  {
    hide P.Lawful;
    hide Inv;
    hide Step;
    if run != [] {
      var n := |run| - 1;
      var s := Run(c, run[..n]);
      assert Allowed(run[..n]);
      ClosedExactly(c, run[..n], id);
      RunKeepsInv(c, run[..n]);
      ClientIsOK(c, s);
      ReadExactly(c, run[..n], id);
      ReadExactly(c, run, id);
      if ClientTaking(c, s).Some? {
        TakingIsAccepted(c, s);
      }
      ShutStep(c, s, run[n], ShutByMessage(c, run[..n], id), Failed(run[..n], id), LocalWrites(c, run[..n], id), id);
      hide AsShut;
    }
  }

  lemma ShutStep(c: P.Codec, s: System, a: Action, shut: bool, failed: bool, writes: seq<bytes>, id: uint32)
    requires ClientOK(s.client) && AsShut(s.client, shut, failed, writes, id)
    requires a.Accepts? ==> s.client.requestIDCounter + 1 < TWO32
    requires id in s.client.conns ==> (s.client.conns[id].reading <==> !failed)
    requires id !in s.client.conns ==> !failed
    requires ClientTaking(c, s).Some? ==> ClientTaking(c, s).value.requestID in s.client.conns
    ensures var m := ClientTaking(c, s);
            AsShut(Step(c, s, a).client,
                   shut || (a.ClientTakes? && !failed && m.Some? && m.value.requestID == id && Shuts(m.value, a.room)),
                   failed || (a.ReadsLocal? && a.id == id && a.r.err && id in s.client.conns),
                   writes + (if a.ClientTakes? && m.Some? && m.value.Data? && m.value.requestID == id
                                && !failed && !shut then [Taken(m.value.data, a.room)]
                             else []), id)
  {
    ClientAfter(c, s, a);
    var m := ClientTaking(c, s);
    if a.ClientTakes? && m.Some? && m.value.Data? && id in s.client.conns {
      WriteTakes(s.client.conns[id].written, m.value.data, a.room);
    }
    hide Step;
    hide ClientTaking;
    hide Write;
  }

  lemma WriteTakes(written: seq<bytes>, data: bytes, room: nat)
    ensures Write(written, data, room) == written + [Taken(data, room)]
  {
    assert data[..|data|] == data;
  }

  // ---- the host's queues

  /** The queue of the message's ID is in the table and holds 64 messages. */
  ghost predicate QueueIsFull(h: Host, m: TCPMessage)
  {
    && !m.Connect? && m.requestID in h.reqChans && h.reqChans[m.requestID] < |h.lives|
    && |h.lives[h.reqChans[m.requestID]].queue| == 64
  }

  /** StartHost has taken a message on the ID and found its queue full. */
  ghost predicate Overflowed(c: P.Codec, run: seq<Action>, id: uint32)
  {
    run != [] &&
    var before, a := run[..|run| - 1], run[|run| - 1];
    || Overflowed(c, before, id)
    || (a.Dispatches?
        && var m := HostMessage(c, Run(c, before));
           m.Some? && m.value.requestID == id && QueueIsFull(Run(c, before).host, m.value))
  }

  /** The goroutine that a connect starts, with the connect in its queue. */
  function Fresh(m: TCPMessage): Lifecycle
  {
    Lifecycle(m.requestID, [m], false, Waiting, [], [], Unstarted, [])
  }

  /**
   The message has been put into the queue of its ID, where it is the last, a connect into a new one, unless that
   queue is not in the table or holds 64 messages. Nothing else has changed.
   */
  ghost predicate Queued(h: Host, h': Host, m: TCPMessage)
  {
    var id := m.requestID;
    && h'.stopped == h.stopped
    && if m.Connect? then
         h'.lives == h.lives + [Fresh(m)] && h'.reqChans == h.reqChans[id := |h.lives|] && h'.lost == h.lost
       else
         && h'.reqChans == h.reqChans
         && if id !in h.reqChans then h'.lives == h.lives && h'.lost == h.lost
            else
              var k := h.reqChans[id];
              && k < |h.lives| && h.lives[k].id == id
              && if |h.lives[k].queue| < 64 then
                   h'.lives == h.lives[k := h.lives[k].(queue := h.lives[k].queue + [m])] && h'.lost == h.lost
                 else |h.lives[k].queue| == 64 && h'.lives == h.lives && h'.lost == h.lost + {id}
  }

  /** In every reachable state this is what happens to the next message that StartHost takes. */
  lemma QueuedExactly(c: P.Codec, run: seq<Action>, m: TCPMessage)
    requires P.Lawful(c) && Allowed(run) && HostMessage(c, Run(c, run)) == Some(m)
    ensures Queued(Run(c, run).host, Run(c, run + [Dispatches]).host, m)
  {
    assert (run + [Dispatches])[..|run|] == run;
    RunKeepsInv(c, run);
    DispatchesQueue(c, Run(c, run));
    hide Run;
    hide P.Lawful;
    hide HostMessage;
    hide Step;
    hide Inv;
    hide Queued;
  }

  /** What is in the table leads to the goroutine of that ID, and no queue ever holds more than 64. */
  lemma ChannelOf(c: P.Codec, s: System, id: uint32)
    requires Inv(c, s) && id in s.host.reqChans
    ensures s.host.reqChans[id] < |s.host.lives| && s.host.lives[s.host.reqChans[id]].id == id
    ensures |s.host.lives[s.host.reqChans[id]].queue| <= 64
  {
    hide P.Inv;
    var l := s.host.lives[s.host.reqChans[id]];
    assert LifeOK(l, P.TakenLog(s.up, l.id), l.id in s.host.lost);
  }

  lemma DispatchQueues(h: Host, m: TCPMessage)
    requires !h.stopped
    requires m.requestID in h.reqChans ==>
               var k := h.reqChans[m.requestID];
               k < |h.lives| && h.lives[k].id == m.requestID && |h.lives[k].queue| <= 64
    ensures Queued(h, Dispatch(h, m), m)
  {
    assert [] + [m] == [m];
  }

  lemma DispatchesQueue(c: P.Codec, s: System)
    requires Inv(c, s)
    ensures var m, h' := HostMessage(c, s), Step(c, s, Dispatches).host;
            if m.Some? then Queued(s.host, h', m.value) else h' == s.host
  {
    HostAfter(c, s, Dispatches);
    var m := HostMessage(c, s);
    if m.Some? {
      if m.value.requestID in s.host.reqChans {
        ChannelOf(c, s, m.value.requestID);
      }
      DispatchQueues(s.host, m.value);
    }
    hide Inv;
    hide Step;
    hide Dispatch;
    hide Queued;
  }

  /** In every reachable state an ID has lost a message exactly if one found its queue full. */
  lemma {:induction false} LostExactly(c: P.Codec, run: seq<Action>, id: uint32)
    requires P.Lawful(c) && Allowed(run)
    ensures id in Run(c, run).host.lost <==> Overflowed(c, run, id)
  {
    hide P.Lawful;
    hide Inv;
    hide Step;
    if run != [] {
      var n := |run| - 1;
      var s := Run(c, run[..n]);
      assert Allowed(run[..n]);
      LostExactly(c, run[..n], id);
      RunKeepsInv(c, run[..n]);
      LostStep(c, s, run[n], id);
    }
  }

  lemma LostStep(c: P.Codec, s: System, a: Action, id: uint32)
    requires Inv(c, s)
    ensures var m := HostMessage(c, s);
            id in Step(c, s, a).host.lost <==>
              id in s.host.lost
              || (a.Dispatches? && m.Some? && m.value.requestID == id && QueueIsFull(s.host, m.value))
  {
    if a.Dispatches? {
      DispatchesQueue(c, s);
      var m := HostMessage(c, s);
      if m.Some? {
        QueuedLoses(s.host, Step(c, s, a).host, m.value, id);
      }
    } else {
      OthersLoseNone(c, s, a);
    }
    hide Inv;
    hide Step;
    hide Queued;
    hide HostMessage;
    hide QueueIsFull;
  }

  lemma QueuedLoses(h: Host, h': Host, m: TCPMessage, id: uint32)
    requires Queued(h, h', m)
    ensures id in h'.lost <==> id in h.lost || (m.requestID == id && QueueIsFull(h, m))
  {
  }

  lemma OthersLoseNone(c: P.Codec, s: System, a: Action)
    requires !a.Dispatches?
    ensures Step(c, s, a).host.lost == s.host.lost
  {
    HostAfter(c, s, a);
    match a
    case Lives(k, e, room) =>
      if k < |s.host.lives| {
        LivesLoseNone(s.host, k, e, room);
      }
    case ReadsTarget(k, r, refusedAt) =>
      if k < |s.host.lives| {
        ReadsLoseNone(s.host, k, r, refusedAt.Some?);
      }
    case _ =>
    hide Step;
    hide LifeNext;
    hide TargetRead;
  }

  /** StartHost has left its loop exactly if it has been stopped. */
  lemma {:induction false} StoppedExactly(c: P.Codec, run: seq<Action>)
    ensures Run(c, run).host.stopped <==> Stops in run
  {
    hide Step;
    if run != [] {
      var n := |run| - 1;
      StoppedExactly(c, run[..n]);
      StopStep(c, Run(c, run[..n]), run[n]);
      assert run == run[..n] + [run[n]];
    }
  }

  lemma StopStep(c: P.Codec, s: System, a: Action)
    ensures Step(c, s, a).host.stopped <==> s.host.stopped || a == Stops
  {
    HostAfter(c, s, a);
    hide Step;
    hide HostMessage;
  }

  lemma LivesLoseNone(h: Host, k: nat, e: Option<bytes>, room: nat)
    requires k < |h.lives|
    ensures LifeNext(h, k, e, room).host.lost == h.lost
  {
  }

  lemma ReadsLoseNone(h: Host, k: nat, r: ReadResult, refused: bool)
    requires k < |h.lives|
    ensures TargetRead(h, k, r, refused).host.lost == h.lost
  {
  }

  // ---- the host's goroutines

  ghost predicate Exists(c: P.Codec, run: seq<Action>, k: nat)
  {
    k < |Run(c, run).host.lives|
  }

  /** What net.Dial has answered the k-th goroutine, which dials in its first step. */
  ghost function Dialled(c: P.Codec, run: seq<Action>, k: nat): Option<Option<bytes>>
  {
    if run == [] then None
    else
      var before, a := run[..|run| - 1], run[|run| - 1];
      if Dialled(c, before, k).Some? then Dialled(c, before, k)
      else if a.Lives? && a.k == k && Exists(c, before, k) then Some(a.dialError)
      else None
  }

  /** The dial fails, a disconnect or the end of the channel is received, or conn.Write takes only `room` bytes. */
  predicate EndsNow(l: Lifecycle, dialError: Option<bytes>, room: nat)
  {
    if l.queue == [] then l.closed
    else if l.consumed == [] then dialError.Some?
    else l.queue[0].Disconnect? || (l.queue[0].Data? && room < |l.queue[0].data|)
  }

  ghost predicate Ended(c: P.Codec, run: seq<Action>, k: nat)
  {
    run != [] &&
    var before, a := run[..|run| - 1], run[|run| - 1];
    || Ended(c, before, k)
    || (a.Lives? && a.k == k && Exists(c, before, k) && EndsNow(Run(c, before).host.lives[k], a.dialError, a.room))
  }

  /** The proxy has stopped while the goroutine ran. */
  ghost predicate ClosedUnder(c: P.Codec, run: seq<Action>, k: nat)
  {
    run != [] &&
    var before, a := run[..|run| - 1], run[|run| - 1];
    ClosedUnder(c, before, k) || (a.Stops? && Exists(c, before, k) && !Ended(c, before, k))
  }

  /** The messages that the goroutine has received. */
  ghost function Served(c: P.Codec, run: seq<Action>, k: nat): seq<TCPMessage>
  {
    if run == [] then []
    else
      var before, a := run[..|run| - 1], run[|run| - 1];
      Served(c, before, k)
      + (if a.Lives? && a.k == k && Exists(c, before, k) && !Ended(c, before, k)
            && Run(c, before).host.lives[k].queue != [] then [Run(c, before).host.lives[k].queue[0]]
         else [])
  }

  /** What conn.Write to the target has taken of the data that the goroutine has received. */
  ghost function TargetWrites(c: P.Codec, run: seq<Action>, k: nat): seq<bytes>
  {
    if run == [] then []
    else
      var before, a := run[..|run| - 1], run[|run| - 1];
      TargetWrites(c, before, k)
      + (if a.Lives? && a.k == k && Exists(c, before, k) && !Ended(c, before, k) then
           WritesNow(Run(c, before).host.lives[k], a.room)
         else [])
  }

  function WritesNow(l: Lifecycle, room: nat): seq<bytes>
  {
    if l.queue != [] && l.consumed != [] && l.queue[0].Data? then [Taken(l.queue[0].data, room)] else []
  }

  /** A read of the target has failed, or what it returned was refused by SendMessage. */
  ghost predicate TargetOver(c: P.Codec, run: seq<Action>, k: nat)
  {
    run != [] &&
    var before, a := run[..|run| - 1], run[|run| - 1];
    || TargetOver(c, before, k)
    || (a.ReadsTarget? && a.k == k && Dialled(c, before, k) == Some(None)
        && (a.r.err || (a.r.chunk != [] && a.refusedAt.Some?)))
  }

  /** It was a failed read that ended it. */
  ghost predicate TargetFinished(c: P.Codec, run: seq<Action>, k: nat)
  {
    run != [] &&
    var before, a := run[..|run| - 1], run[|run| - 1];
    || TargetFinished(c, before, k)
    || (a.ReadsTarget? && a.k == k && Dialled(c, before, k) == Some(None) && !TargetOver(c, before, k)
        && a.r.err && (a.r.chunk == [] || a.refusedAt.None?))
  }

  /** What conn.Read has returned for the target, from the dial up to the last read. */
  ghost function TargetChunks(c: P.Codec, run: seq<Action>, k: nat): seq<bytes>
  {
    if run == [] then []
    else
      var before, a := run[..|run| - 1], run[|run| - 1];
      TargetChunks(c, before, k)
      + (if a.ReadsTarget? && a.k == k && a.r.chunk != [] && Dialled(c, before, k) == Some(None)
            && !TargetOver(c, before, k) then [a.r.chunk]
         else [])
  }

  /** All of this about one goroutine. */
  datatype Life = Life(dialled: Option<Option<bytes>>, ended: bool, closed: bool, served: seq<TCPMessage>,
                       writes: seq<bytes>, targetOver: bool, targetFinished: bool, chunks: seq<bytes>)

  const UNBORN := Life(None, false, false, [], [], false, false, [])

  ghost function LifeOf(c: P.Codec, run: seq<Action>, k: nat): Life
  {
    Life(Dialled(c, run, k), Ended(c, run, k), ClosedUnder(c, run, k), Served(c, run, k),
         TargetWrites(c, run, k), TargetOver(c, run, k), TargetFinished(c, run, k), TargetChunks(c, run, k))
  }

  /** The goroutine's record says what its life has been. */
  predicate AsLived(l: Lifecycle, life: Life)
  {
    && (l.phase == Done <==> life.ended) && (l.phase == Waiting <==> life.dialled.None?)
    && (l.closed <==> life.closed) && l.consumed == life.served && l.written == life.writes && l.read == life.chunks
    && (life.chunks != [] ==> life.dialled == Some(None))
    && (life.targetOver ==> life.dialled == Some(None)) && (life.targetFinished ==> life.targetOver)
    && l.reader == (match life.dialled
                    case None => Unstarted
                    case Some(Some(error)) => Refused(error)
                    case Some(None) =>
                      if !life.targetOver then Reading else if life.targetFinished then Finished else Broken)
  }

  /** The k-th goroutine after a step, from the k-th before. */
  ghost predicate After(s: System, a: Action, k: nat, l': Lifecycle)
    requires k < |s.host.lives|
  {
    var l := s.host.lives[k];
    match a
    case Dispatches => l' == l.(queue := l'.queue)
    case Lives(j, e, room) => l' == if j == k then LifeNext(s.host, k, e, room).host.lives[k] else l
    case ReadsTarget(j, r, refusedAt) =>
      l' == if j == k then TargetRead(s.host, k, r, refusedAt.Some?).host.lives[k] else l
    case Stops => l' == l.(closed := l.closed || l.phase != Done)
    case _ => l' == l
  }

  lemma GoroutineAfter(c: P.Codec, s: System, a: Action, k: nat)
    requires Inv(c, s) && k < |s.host.lives|
    ensures var h' := Step(c, s, a).host; k < |h'.lives| && After(s, a, k, h'.lives[k])
  {
    if a.Dispatches? {
      DispatchesQueue(c, s);
      var m := HostMessage(c, s);
      if m.Some? {
        QueuedKeeps(s.host, Step(c, s, a).host, m.value, k);
      }
      hide HostMessage;
    } else {
      OthersKeep(c, s, a, k);
    }
    hide Inv;
    hide Step;
    hide Queued;
    hide LifeNext;
    hide TargetRead;
  }

  lemma QueuedKeeps(h: Host, h': Host, m: TCPMessage, k: nat)
    requires Queued(h, h', m) && k < |h.lives|
    ensures k < |h'.lives| && h'.lives[k] == h.lives[k].(queue := h'.lives[k].queue)
  {
  }

  lemma OthersKeep(c: P.Codec, s: System, a: Action, k: nat)
    requires Inv(c, s) && k < |s.host.lives| && !a.Dispatches?
    ensures var h' := Step(c, s, a).host; k < |h'.lives| && After(s, a, k, h'.lives[k])
  {
    HostAfter(c, s, a);
    match a
    case Lives(j, e, room) =>
      if j < |s.host.lives| {
        OthersLive(s.host, j, e, room, k);
      }
    case ReadsTarget(j, r, refusedAt) =>
      if j < |s.host.lives| {
        OthersRead(s.host, j, r, refusedAt.Some?, k);
      }
    case Stops => StopReaches(c, s, k);
    case _ =>
    hide Inv;
    hide Step;
    hide Dispatch;
    hide LifeNext;
    hide TargetRead;
    hide StopHost;
  }

  lemma OthersLive(h: Host, j: nat, e: Option<bytes>, room: nat, k: nat)
    requires j < |h.lives| && k < |h.lives|
    ensures var h' := LifeNext(h, j, e, room).host;
            |h'.lives| == |h.lives| && (j != k ==> h'.lives[k] == h.lives[k])
  {
  }

  lemma OthersRead(h: Host, j: nat, r: ReadResult, refused: bool, k: nat)
    requires j < |h.lives| && k < |h.lives|
    ensures var h' := TargetRead(h, j, r, refused).host;
            |h'.lives| == |h.lives| && (j != k ==> h'.lives[k] == h.lives[k])
  {
  }

  lemma StopReaches(c: P.Codec, s: System, k: nat)
    requires Inv(c, s) && k < |s.host.lives|
    ensures var l, h' := s.host.lives[k], StopHost(s.host);
            |h'.lives| == |s.host.lives| && h'.lives[k] == l.(closed := l.closed || l.phase != Done)
  {
    hide P.Inv;
    hide LivesOK;
    hide UpOK;
    hide DownOK;
    hide LocalsOK;
  }

  /** Only a connect starts a goroutine. */
  lemma GoroutineBorn(c: P.Codec, s: System, a: Action, k: nat)
    requires Inv(c, s) && |s.host.lives| <= k < |Step(c, s, a).host.lives|
    ensures a.Dispatches? && HostMessage(c, s).Some? && HostMessage(c, s).value.Connect?
    ensures k == |s.host.lives| && Step(c, s, a).host.lives[k] == Fresh(HostMessage(c, s).value)
  {
    HostAfter(c, s, a);
    match a
    case Dispatches => DispatchesQueue(c, s);
    case Lives(j, e, room) =>
      if j < |s.host.lives| {
        OthersLive(s.host, j, e, room, 0);
      }
    case ReadsTarget(j, r, refusedAt) =>
      if j < |s.host.lives| {
        OthersRead(s.host, j, r, refusedAt.Some?, 0);
      }
    case _ =>
    hide Inv;
    hide Step;
    hide Dispatch;
    hide LifeNext;
    hide TargetRead;
    hide HostMessage;
  }

  /** What the life of the k-th goroutine is after one more action, told from the state before it. */
  function Lived(life: Life, a: Action, k: nat, l: Lifecycle): Life
  {
    match a
    case Lives(j, e, room) =>
      if j != k then life
      else
        life.(dialled := if life.dialled.Some? then life.dialled else Some(e),
              ended := life.ended || EndsNow(l, e, room),
              served := life.served + (if !life.ended && l.queue != [] then [l.queue[0]] else []),
              writes := life.writes + (if !life.ended then WritesNow(l, room) else []))
    case ReadsTarget(j, r, refusedAt) =>
      if j != k || life.dialled != Some(None) then life
      else
        life.(targetOver := life.targetOver || r.err || (r.chunk != [] && refusedAt.Some?),
              targetFinished := life.targetFinished
                                || (!life.targetOver && r.err && (r.chunk == [] || refusedAt.None?)),
              chunks := life.chunks + (if r.chunk != [] && !life.targetOver then [r.chunk] else []))
    case Stops => life.(closed := life.closed || !life.ended)
    case _ => life
  }

  /** Where a goroutine stands in its queue, as far as its phase tells. */
  predicate InPhase(l: Lifecycle)
  {
    match l.phase
    case Waiting => l.consumed == [] && l.queue != [] && l.queue[0].Connect?
    case _ => l.consumed != []
  }

  lemma EveryPhase(c: P.Codec, s: System, k: nat)
    requires Inv(c, s) && k < |s.host.lives|
    ensures InPhase(s.host.lives[k])
  {
    hide P.Inv;
    hide Subsequence;
    hide DataOf;
    hide Cut;
    var l := s.host.lives[k];
    assert LifeOK(l, P.TakenLog(s.up, l.id), l.id in s.host.lost);
    if l.phase == Waiting {
      assert l.consumed + l.queue == l.queue;
    }
  }

  lemma LivesStep(h: Host, k: nat, e: Option<bytes>, room: nat, life: Life)
    requires k < |h.lives| && InPhase(h.lives[k]) && AsLived(h.lives[k], life)
    ensures AsLived(LifeNext(h, k, e, room).host.lives[k], Lived(life, Lives(k, e, room), k, h.lives[k]))
  {
    if h.lives[k].phase == Running && h.lives[k].queue != [] {
      ReceivesStep(h, k, e, room, life);
    } else {
      DialsStep(h, k, e, room, life);
    }
    hide LifeNext;
    hide AsLived;
    hide Lived;
  }

  lemma ReceivesStep(h: Host, k: nat, e: Option<bytes>, room: nat, life: Life)
    requires k < |h.lives| && InPhase(h.lives[k]) && AsLived(h.lives[k], life)
    requires h.lives[k].phase == Running && h.lives[k].queue != []
    ensures AsLived(LifeNext(h, k, e, room).host.lives[k], Lived(life, Lives(k, e, room), k, h.lives[k]))
  {
    var l := h.lives[k];
    if l.queue[0].Data? {
      WriteTakes(l.written, l.queue[0].data, room);
    }
    hide Write;
    hide Taken;
  }

  lemma DialsStep(h: Host, k: nat, e: Option<bytes>, room: nat, life: Life)
    requires k < |h.lives| && InPhase(h.lives[k]) && AsLived(h.lives[k], life)
    requires h.lives[k].phase != Running || h.lives[k].queue == []
    ensures AsLived(LifeNext(h, k, e, room).host.lives[k], Lived(life, Lives(k, e, room), k, h.lives[k]))
  {
    hide Write;
    hide Taken;
  }

  lemma ReadsStep(h: Host, k: nat, r: ReadResult, refusedAt: Option<nat>, life: Life)
    requires k < |h.lives| && InPhase(h.lives[k]) && AsLived(h.lives[k], life)
    ensures AsLived(TargetRead(h, k, r, refusedAt.Some?).host.lives[k],
                    Lived(life, ReadsTarget(k, r, refusedAt), k, h.lives[k]))
  {
  }

  lemma QuietStep(s: System, a: Action, k: nat, l': Lifecycle, life: Life)
    requires k < |s.host.lives| && AsLived(s.host.lives[k], life) && After(s, a, k, l')
    requires !a.Lives? && !a.ReadsTarget?
    ensures AsLived(l', Lived(life, a, k, s.host.lives[k]))
  {
  }

  lemma LifeStep(c: P.Codec, s: System, a: Action, k: nat, life: Life)
    requires Inv(c, s) && k < |s.host.lives| && AsLived(s.host.lives[k], life)
    ensures k < |Step(c, s, a).host.lives|
    ensures AsLived(Step(c, s, a).host.lives[k], Lived(life, a, k, s.host.lives[k]))
  {
    GoroutineAfter(c, s, a, k);
    EveryPhase(c, s, k);
    match a
    case Lives(j, e, room) => LivesStep(s.host, k, e, room, life);
    case ReadsTarget(j, r, refusedAt) => ReadsStep(s.host, k, r, refusedAt, life);
    case _ => QuietStep(s, a, k, Step(c, s, a).host.lives[k], life);
    hide Inv;
    hide Step;
    hide LifeNext;
    hide TargetRead;
    hide InPhase;
    hide AsLived;
  }

  lemma LifeOfStep(c: P.Codec, run: seq<Action>, k: nat)
    requires run != [] && Exists(c, run[..|run| - 1], k)
    ensures LifeOf(c, run, k)
            == Lived(LifeOf(c, run[..|run| - 1], k), run[|run| - 1], k, Run(c, run[..|run| - 1]).host.lives[k])
  {
    hide Run;
    hide EndsNow;
  }

  lemma UnbornStep(c: P.Codec, run: seq<Action>, k: nat)
    requires run != [] && !Exists(c, run[..|run| - 1], k) && LifeOf(c, run[..|run| - 1], k) == UNBORN
    ensures LifeOf(c, run, k) == UNBORN
  {
    hide Run;
    hide EndsNow;
  }

  /**
   In every reachable state: whether a goroutine has dialled and ended, whether its channel has been closed, which
   messages it has received, what it has written to and read from its target and how that came to an end are as the
   actions say.
   */
  lemma {:induction false} LivedExactly(c: P.Codec, run: seq<Action>, k: nat)
    requires P.Lawful(c) && Allowed(run)
    ensures if Exists(c, run, k) then AsLived(Run(c, run).host.lives[k], LifeOf(c, run, k))
            else LifeOf(c, run, k) == UNBORN
  {
    hide P.Lawful;
    hide Inv;
    hide Step;
    hide AsLived;
    hide Lived;
    hide LifeOf;
    if run == [] {
      NothingLived(c, k);
    } else {
      var n := |run| - 1;
      var s := Run(c, run[..n]);
      assert Allowed(run[..n]);
      LivedExactly(c, run[..n], k);
      RunKeepsInv(c, run[..n]);
      if Exists(c, run[..n], k) {
        LifeStep(c, s, run[n], k, LifeOf(c, run[..n], k));
        LifeOfStep(c, run, k);
      } else {
        UnbornStep(c, run, k);
        if Exists(c, run, k) {
          GoroutineBorn(c, s, run[n], k);
          BornAsLived(HostMessage(c, s).value);
        }
      }
    }
  }

  lemma NothingLived(c: P.Codec, k: nat)
    ensures !Exists(c, [], k) && LifeOf(c, [], k) == UNBORN
  {
  }

  lemma BornAsLived(m: TCPMessage)
    ensures AsLived(Fresh(m), UNBORN)
  {
  }

  // ---- what has been cut off

  /** Frames of the ID have been lost on the way up. */
  predicate CutUp(run: seq<Action>, id: uint32)
  {
    run != [] &&
    var a := run[|run| - 1];
    CutUp(run[..|run| - 1], id) || (a.Breaks? && a.upward && a.id == id && id != 0)
  }

  /** The target's read loop has something to send, and SendMessage refuses it. */
  ghost predicate RefusesNow(c: P.Codec, before: seq<Action>, a: Action, id: uint32)
  {
    && a.ReadsTarget? && a.refusedAt.Some? && (a.r.chunk != [] || a.r.err)
    && Exists(c, before, a.k) && Run(c, before).host.lives[a.k].id == id
    && Dialled(c, before, a.k) == Some(None) && !TargetOver(c, before, a.k)
  }

  /** Frames of the ID have been lost on the way down, or refused. */
  ghost predicate CutDown(c: P.Codec, run: seq<Action>, id: uint32)
  {
    run != [] &&
    var before, a := run[..|run| - 1], run[|run| - 1];
    || CutDown(c, before, id)
    || (a.Breaks? && !a.upward && a.id == id && id != 0)
    || RefusesNow(c, before, a, id)
  }

  lemma {:induction false} PostingCutsNothing(c: P.Codec, p: P.Pipe, ms: seq<TCPMessage>)
    ensures P.PostAll(c, p, ms).link.cut == p.link.cut
  {
    hide Frames;
    if ms != [] {
      PostingCutsNothing(c, p, ms[..|ms| - 1]);
    }
  }

  lemma CutStep(c: P.Codec, s: System, a: Action, id: uint32)
    ensures var s' := Step(c, s, a);
            && (id in s'.up.link.cut <==> id in s.up.link.cut || (a.Breaks? && a.upward && a.id == id && id != 0))
            && (id in s'.down.link.cut <==>
                  || id in s.down.link.cut || (a.Breaks? && !a.upward && a.id == id && id != 0)
                  || (a.ReadsTarget? && a.refusedAt.Some? && (a.r.chunk != [] || a.r.err) && a.k < |s.host.lives|
                      && s.host.lives[a.k].id == id && id != 0 && s.host.lives[a.k].reader == Reading))
  {
    match a
    case Accepts(address) => PostingCutsNothing(c, s.up, AcceptConn(s.client, address).sends);
    case ReadsLocal(i, r) => PostingCutsNothing(c, s.up, LocalRead(s.client, i, r).sends);
    case Lives(k, e, room) =>
      if k < |s.host.lives| {
        PostingCutsNothing(c, s.down, LifeNext(s.host, k, e, room).sends);
      }
    case ReadsTarget(k, r, refusedAt) =>
      if k < |s.host.lives| {
        PostingCutsNothing(c, s.down, TargetRead(s.host, k, r, refusedAt.Some?).sends);
        SendsSomething(s.host, k, r, refusedAt.Some?);
      }
    case FrameUp(i) => DeliveryCutsNothing(s.up.link, i);
    case FrameDown(i) => DeliveryCutsNothing(s.down.link, i);
    case _ =>
    hide AcceptConn;
    hide P.PostAll;
    hide L.Deliver;
    hide LifeNext;
    hide TargetRead;
    hide LocalRead;
    hide Dispatch;
    hide ClientMessage;
    hide StopHost;
  }

  lemma SendsSomething(h: Host, k: nat, r: ReadResult, refused: bool)
    requires k < |h.lives|
    ensures TargetRead(h, k, r, refused).sends != [] <==> h.lives[k].reader == Reading && (r.chunk != [] || r.err)
  {
  }

  lemma DeliveryCutsNothing(l: L.Link, id: uint32)
    ensures L.Deliver(l, id).cut == l.cut
  {
    hide DecodeFrame;
  }

  /** In every reachable state an ID is cut off exactly if frames of it have been lost in that direction, or refused. */
  lemma {:induction false} CutExactly(c: P.Codec, run: seq<Action>, id: uint32)
    requires P.Lawful(c) && Allowed(run)
    ensures id in Run(c, run).up.link.cut <==> CutUp(run, id)
    ensures id in Run(c, run).down.link.cut <==> CutDown(c, run, id)
  {
    hide P.Lawful;
    hide Inv;
    hide Step;
    hide Dialled;
    hide TargetOver;
    if run != [] {
      var n := |run| - 1;
      assert Allowed(run[..n]);
      CutExactly(c, run[..n], id);
      CutStep(c, Run(c, run[..n]), run[n], id);
      if run[n].ReadsTarget? && Exists(c, run[..n], run[n].k) {
        ReadingExactly(c, run[..n], run[n].k);
      }
    }
  }

  lemma ReadingExactly(c: P.Codec, run: seq<Action>, k: nat)
    requires P.Lawful(c) && Allowed(run) && Exists(c, run, k)
    ensures Run(c, run).host.lives[k].id != 0
    ensures Run(c, run).host.lives[k].reader == Reading <==> Dialled(c, run, k) == Some(None) && !TargetOver(c, run, k)
  {
    hide P.Lawful;
    hide Inv;
    hide Run;
    hide AsLived;
    LivedExactly(c, run, k);
    RunKeepsInv(c, run);
    NumberedFromOne(c, Run(c, run), k);
    ReaderTells(Run(c, run).host.lives[k], LifeOf(c, run, k));
  }

  lemma ReaderTells(l: Lifecycle, life: Life)
    requires AsLived(l, life)
    ensures l.reader == Reading <==> life.dialled == Some(None) && !life.targetOver
  {
  }

  lemma NumberedFromOne(c: P.Codec, s: System, k: nat)
    requires Inv(c, s) && k < |s.host.lives|
    ensures s.host.lives[k].id != 0
  {
    hide P.Inv;
    hide UpOK;
    hide LivesOK;
    hide DownOK;
    hide LocalsOK;
  }

  // ---- the streams

  /**
   Integrity of every connection in every reachable state, in terms of what conn.Read has returned: what the k-th
   goroutine has written to its target is, but for a last partial write, a subsequence of the chunks read from the
   one local connection of its ID, and byte for byte a prefix if no message for it ever found its queue full. What the
   local connection has been written is a prefix of what was read from the target.
   */
  lemma StreamIntegrity(c: P.Codec, run: seq<Action>, k: nat)
    requires P.Lawful(c) && Allowed(run) && Exists(c, run, k)
    ensures var s := Run(c, run);
            var l := s.host.lives[k];
            && l.id in s.client.conns && Accepted(run, l.id)
            && (forall i :: 0 <= i < |s.host.lives| && i != k ==> s.host.lives[i].id != l.id)
            && (exists chunks :: Cut(l.written, chunks) && Subsequence(chunks, LocalChunks(run, l.id)))
            && (!Overflowed(c, run, l.id) ==> Flatten(l.written) <= Flatten(LocalChunks(run, l.id)))
            && Flatten(s.client.conns[l.id].written) <= Flatten(TargetChunks(c, run, k))
  {
    RecordedIntegrity(c, run, k);
    var id := Run(c, run).host.lives[k].id;
    ReadExactly(c, run, id);
    LostExactly(c, run, id);
    LivedExactly(c, run, k);
    hide Run;
    hide P.Lawful;
    hide Allowed;
    hide Cut;
    hide Subsequence;
    hide LocalChunks;
    hide TargetChunks;
    hide Overflowed;
  }

  /**
   Nothing is held back: once the frames of a connection that was not cut have all arrived and its messages have
   been handled, a goroutine whose dial succeeded, that has not ended and no message for which found its queue full has
   written every chunk read from the local connection; and a local connection that nothing has shut and no read of
   which has failed has been written every chunk read from the target.
   */
  lemma NothingIsHeldBack(c: P.Codec, run: seq<Action>, k: nat)
    requires P.Lawful(c) && Allowed(run) && Dialled(c, run, k) == Some(None) && !Ended(c, run, k)
    ensures Exists(c, run, k)
    ensures var s := Run(c, run);
            var l := s.host.lives[k];
            && l.id in s.client.conns
            && (!CutUp(run, l.id) && At(s.up.link.wire, l.id) == [] && s.up.link.inbox == []
                && l.queue == [] && !Overflowed(c, run, l.id) ==>
                  l.written == LocalChunks(run, l.id))
            && (!CutDown(c, run, l.id) && At(s.down.link.wire, l.id) == [] && s.down.link.inbox == []
                && !Failed(run, l.id) && !ShutByMessage(c, run, l.id) ==>
                  s.client.conns[l.id].written == TargetChunks(c, run, k))
  {
    LivedExactly(c, run, k);
    assert Exists(c, run, k);
    RecordedArrives(c, run, k);
    var id := Run(c, run).host.lives[k].id;
    ReadExactly(c, run, id);
    LostExactly(c, run, id);
    ClosedExactly(c, run, id);
    CutExactly(c, run, id);
    hide CutUp;
    hide CutDown;
    hide Run;
    hide P.Lawful;
    hide Allowed;
    hide LocalChunks;
    hide TargetChunks;
    hide Overflowed;
    hide ShutByMessage;
    hide Failed;
    hide Ended;
    hide Dialled;
  }
}
