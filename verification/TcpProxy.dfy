/**
 The two ends of the TCP proxy (internal/proxy/tcp.go): what each event does to the
 client's connections and to the host's per-ID queues, and what it makes the proxy send.
 */
module TcpProxy {
  import opened Bytes
  import opened Framing

  datatype TCPMessage =
    | Connect(requestID: uint32, address: string)
    | Data(requestID: uint32, data: bytes)
    | Disconnect(requestID: uint32)
    | Error(requestID: uint32, data: bytes)
    | Unknown(requestID: uint32)

  const READ_BUFFER := 32 * 1024
  const QUEUE_SIZE := 64

  /** What conn.Read returns: some bytes, an error, or both. */
  datatype ReadResult = ReadResult(chunk: bytes, err: bool)

  // ---- client side

  /**
   A local connection: what was read from it, whether forwardFromLocal still runs, what was written to it, and
   whether the proxy has closed its socket.
   */
  datatype LocalConn = LocalConn(address: string, read: seq<bytes>, reading: bool, written: seq<bytes>, closed: bool)

  datatype Client = Client(requestIDCounter: uint32, activeConns: set<uint32>, conns: map<uint32, LocalConn>)

  datatype ClientStep = ClientStep(client: Client, sends: seq<TCPMessage>)

  function AcceptConn(c: Client, address: string): ClientStep
  {
    var id := (c.requestIDCounter + 1) % TWO32;
    var conn := LocalConn(address, [], true, [], false);
    ClientStep(Client(id, c.activeConns + {id}, c.conns[id := conn]), [Connect(id, address)])
  }

  /** One turn of the loop in forwardFromLocal; after an error the loop is over, and the socket is left as it is. */
  function LocalRead(c: Client, id: uint32, r: ReadResult): ClientStep
  {
    if id !in c.conns || !c.conns[id].reading then
      ClientStep(c, [])
    else
      var conn := c.conns[id];
      var got := if r.chunk == [] then conn else conn.(read := conn.read + [r.chunk]);
      var data := if r.chunk == [] then [] else [Data(id, r.chunk)];
      if r.err then
        ClientStep(c.(activeConns := c.activeConns - {id}, conns := c.conns[id := got.(reading := false)]),
                   data + [Disconnect(id)])
      else
        ClientStep(c.(conns := c.conns[id := got]), data)
  }

  /** conn.Write takes at most `room` bytes; taking fewer than all is its error. */
  function Write(written: seq<bytes>, data: bytes, room: nat): seq<bytes>
  {
    written + [data[..Min(room, |data|)]]
  }

  /** The connections that exist are those that were accepted. */
  ghost predicate Tracked(c: Client)
  {
    c.activeConns <= c.conns.Keys
  }

  /** handleDisconnect closes the socket of a connection that is still active. */
  function CloseConn(c: Client, id: uint32): Client
  {
    c.(activeConns := c.activeConns - {id},
       conns := if id in c.activeConns && id in c.conns then c.conns[id := c.conns[id].(closed := true)] else c.conns)
  }

  function ClientMessage(c: Client, m: TCPMessage, room: nat): Client
  {
    match m
    case Data(id, data) =>
      if id in c.activeConns && id in c.conns then
        var conn := c.conns[id];
        var c1 := c.(conns := c.conns[id := conn.(written := Write(conn.written, data, room))]);
        if room < |data| then CloseConn(c1, id) else c1
      else c
    case Disconnect(id) => CloseConn(c, id)
    case Error(id, _) => CloseConn(c, id)
    case _ => c
  }

  // ---- host side

  datatype Phase = Waiting | Running | Done

  /**
   forwardFromTarget: not started, running, over after a failed read or after a send that was refused, or never
   possible because the dial failed.
   */
  datatype Reader = Unstarted | Reading | Finished | Broken | Refused(error: bytes)

  /**
   One handleConnectionLifecycle goroutine with its channel. `consumed` is history: the messages it has
   taken from the channel.
   */
  datatype Lifecycle = Lifecycle(
    id: uint32, queue: seq<TCPMessage>, closed: bool, phase: Phase,
    written: seq<bytes>, read: seq<bytes>, reader: Reader,
    consumed: seq<TCPMessage>)

  /** `lost` is history: the IDs for which a message found the queue full. */
  datatype Host = Host(reqChans: map<uint32, nat>, lives: seq<Lifecycle>, stopped: bool, lost: set<uint32>)

  datatype HostStep = HostStep(host: Host, sends: seq<TCPMessage>)

  /** Every channel in the table belongs to a goroutine that was started. */
  predicate Wired(h: Host)
  {
    forall id :: id in h.reqChans ==> h.reqChans[id] < |h.lives|
  }

  function Opened(h: Host, m: TCPMessage): Host
  {
    if m.Connect? then
      h.(lives := h.lives + [Lifecycle(m.requestID, [], false, Waiting, [], [], Unstarted, [])],
         reqChans := h.reqChans[m.requestID := |h.lives|])
    else h
  }

  function Enqueue(h: Host, m: TCPMessage): Host
  {
    if m.requestID !in h.reqChans || h.reqChans[m.requestID] >= |h.lives| then h
    else
      var k := h.reqChans[m.requestID];
      var l := h.lives[k];
      if |l.queue| < QUEUE_SIZE then
        h.(lives := h.lives[k := l.(queue := l.queue + [m])])
      else
        h.(lost := h.lost + {m.requestID})
  }

  /** One message in StartHost's loop, which Stop ends. */
  function Dispatch(h: Host, m: TCPMessage): Host
  {
    if h.stopped then h else Enqueue(Opened(h, m), m)
  }

  function Finish(h: Host, k: nat, l: Lifecycle): Host
    requires k < |h.lives|
  {
    h.(lives := h.lives[k := l.(phase := Done)], reqChans := h.reqChans - {l.id})
  }

  /**
   The goroutine's next message, or the end of its closed and drained channel. `dialError` is the
   outcome of net.Dial and `room` how many bytes conn.Write takes.
   */
  function LifeNext(h: Host, k: nat, dialError: Option<bytes>, room: nat): HostStep
    requires k < |h.lives|
  {
    var l := h.lives[k];
    if l.phase == Done then
      HostStep(h, [])
    else if l.queue == [] then
      HostStep(if l.closed then Finish(h, k, l) else h, [])
    else
      var m := l.queue[0];
      var l1 := l.(queue := l.queue[1..], consumed := l.consumed + [m]);
      if l.phase == Waiting then
        if !m.Connect? then HostStep(Finish(h, k, l1), [])
        else if dialError.Some? then
          HostStep(Finish(h, k, l1.(reader := Refused(dialError.value))), [Error(l.id, dialError.value)])
        else
          HostStep(h.(lives := h.lives[k := l1.(phase := Running, reader := Reading)]), [])
      else
        match m
        case Data(_, data) =>
          var l2 := l1.(written := Write(l.written, data, room));
          HostStep(if room < |data| then Finish(h, k, l2) else h.(lives := h.lives[k := l2]), [])
        case Disconnect(_) => HostStep(Finish(h, k, l1), [])
        case _ => HostStep(h.(lives := h.lives[k := l1]), [])
  }

  /** One turn of the loop in forwardFromTarget; `refused` says whether SendMessage fails for the data. */
  function TargetRead(h: Host, k: nat, r: ReadResult, refused: bool): HostStep
    requires k < |h.lives|
  {
    var l := h.lives[k];
    if l.reader != Reading then
      HostStep(h, [])
    else
      var got := if r.chunk == [] then l else l.(read := l.read + [r.chunk]);
      var data := if r.chunk == [] then [] else [Data(l.id, r.chunk)];
      if r.chunk != [] && refused then
        HostStep(h.(lives := h.lives[k := got.(reader := Broken)]), data)
      else if r.err then
        HostStep(h.(lives := h.lives[k := got.(reader := Finished)]), data + [Disconnect(l.id)])
      else
        HostStep(h.(lives := h.lives[k := got]), data)
  }

  /** StartHost leaves its loop and closes the channels in the table. */
  function StopHost(h: Host): Host
  {
    h.(stopped := true,
       lives := seq(|h.lives|, k requires 0 <= k < |h.lives| =>
         var l := h.lives[k];
         if l.id in h.reqChans && h.reqChans[l.id] == k then l.(closed := true) else l))
  }

  // ---- the loops, one turn at a time

  function LocalReads(c: Client, id: uint32, rs: seq<ReadResult>): ClientStep
  {
    if rs == [] then ClientStep(c, [])
    else
      var before := LocalReads(c, id, rs[..|rs| - 1]);
      var last := LocalRead(before.client, id, rs[|rs| - 1]);
      ClientStep(last.client, before.sends + last.sends)
  }

  function ClientMessages(c: Client, ms: seq<TCPMessage>, rooms: nat -> nat): Client
  {
    if ms == [] then c
    else ClientMessage(ClientMessages(c, ms[..|ms| - 1], rooms), ms[|ms| - 1], rooms(|ms| - 1))
  }

  function DispatchAll(h: Host, ms: seq<TCPMessage>): Host
  {
    if ms == [] then h else Dispatch(DispatchAll(h, ms[..|ms| - 1]), ms[|ms| - 1])
  }

  function LifeSteps(h: Host, k: nat, dialError: Option<bytes>, rooms: nat -> nat, n: nat): (r: HostStep)
    requires k < |h.lives|
    ensures |r.host.lives| == |h.lives|
  {
    if n == 0 then HostStep(h, [])
    else
      var before := LifeSteps(h, k, dialError, rooms, n - 1);
      var last := LifeNext(before.host, k, dialError, rooms(n - 1));
      HostStep(last.host, before.sends + last.sends)
  }

  function TargetReads(h: Host, k: nat, rs: seq<ReadResult>, refused: nat -> bool): (r: HostStep)
    requires k < |h.lives|
    ensures |r.host.lives| == |h.lives|
  {
    if rs == [] then HostStep(h, [])
    else
      var before := TargetReads(h, k, rs[..|rs| - 1], refused);
      var last := TargetRead(before.host, k, rs[|rs| - 1], refused(|rs| - 1));
      HostStep(last.host, before.sends + last.sends)
  }

  lemma NoTargetReads(h: Host, k: nat, refused: nat -> bool)
    requires k < |h.lives|
    ensures TargetReads(h, k, [], refused) == HostStep(h, [])
  {
  }

  /** After the read that failed, forwardFromLocal and forwardFromTarget are over. */
  lemma {:induction false} LocalReadsOver(c: Client, id: uint32, rs: seq<ReadResult>, n: nat)
    requires n <= |rs|
    requires var was := LocalReads(c, id, rs[..n]).client; id in was.conns ==> !was.conns[id].reading
    ensures LocalReads(c, id, rs) == LocalReads(c, id, rs[..n])
    decreases |rs|
  {
    if n == |rs| {
      assert rs[..n] == rs;
    } else {
      assert rs[..|rs| - 1][..n] == rs[..n];
      LocalReadsOver(c, id, rs[..|rs| - 1], n);
    }
  }

  lemma {:induction false} TargetReadsOver(h: Host, k: nat, rs: seq<ReadResult>, refused: nat -> bool, n: nat)
    requires k < |h.lives| && n <= |rs| && TargetReads(h, k, rs[..n], refused).host.lives[k].reader != Reading
    ensures TargetReads(h, k, rs, refused) == TargetReads(h, k, rs[..n], refused)
    decreases |rs|
  {
    if n == |rs| {
      assert rs[..n] == rs;
    } else {
      assert rs[..|rs| - 1][..n] == rs[..n];
      TargetReadsOver(h, k, rs[..|rs| - 1], refused, n);
    }
  }

  lemma TargetReadsTurn(h: Host, k: nat, rs: seq<ReadResult>, refused: nat -> bool, i: nat)
    requires k < |h.lives| && i < |rs|
    ensures var before := TargetReads(h, k, rs[..i], refused);
            var last := TargetRead(before.host, k, rs[i], refused(i));
            TargetReads(h, k, rs[..i + 1], refused) == HostStep(last.host, before.sends + last.sends)
  {
    hide TargetRead;
    assert rs[..i + 1][..i] == rs[..i];
  }

  /** `posted` are the messages handed to the data channel manager, in order, refused or not. */
  class TCPProxy {
    var requestIDCounter: uint32
    var activeConns: set<uint32>
    var conns: map<uint32, LocalConn>
    var reqChans: map<uint32, nat>
    var lives: seq<Lifecycle>
    var stopped: bool
    var lost: set<uint32>
    var posted: seq<TCPMessage>

    constructor ()
      ensures ClientState() == Client(0, {}, map[]) && HostState() == Host(map[], [], false, {}) && posted == []
    {
      requestIDCounter, activeConns, conns := 0, {}, map[];
      reqChans, lives, stopped, lost := map[], [], false, {};
      posted := [];
    }

    function ClientState(): Client
      reads this
    {
      Client(requestIDCounter, activeConns, conns)
    }

    function HostState(): Host
      reads this
    {
      Host(reqChans, lives, stopped, lost)
    }

    /** One accepted connection in StartClient. */
    method AcceptOne(address: string) returns (requestID: uint32)
      modifies this`requestIDCounter, this`activeConns, this`conns, this`posted
      ensures var r := AcceptConn(old(ClientState()), address);
              ClientState() == r.client && posted == old(posted) + r.sends && requestID == r.client.requestIDCounter
    {
      requestIDCounter := (requestIDCounter + 1) % TWO32;
      requestID := requestIDCounter;
      activeConns := activeConns + {requestID};
      conns := conns[requestID := LocalConn(address, [], true, [], false)];
      posted := posted + [Connect(requestID, address)];
    }

    method ForwardFromLocal(requestID: uint32, results: seq<ReadResult>)
      requires requestID in conns && conns[requestID].reading
      modifies this`activeConns, this`conns, this`posted
      ensures var r := LocalReads(old(ClientState()), requestID, results);
              ClientState() == r.client && posted == old(posted) + r.sends
    {
      hide LocalRead;
      ghost var c := ClientState();
      for i := 0 to |results|
        invariant requestID in conns && conns[requestID].reading
        invariant ClientState() == LocalReads(c, requestID, results[..i]).client
        invariant posted == old(posted) + LocalReads(c, requestID, results[..i]).sends
      {
        assert results[..i + 1][..i] == results[..i];
        OneLocalRead(requestID, results[i]);
        if results[i].err {
          LocalReadsOver(c, requestID, results, i + 1);
          return;
        }
      }
      assert results[..|results|] == results;
    }

    method OneLocalRead(requestID: uint32, r: ReadResult)
      requires requestID in conns && conns[requestID].reading
      modifies this`activeConns, this`conns, this`posted
      ensures var q := LocalRead(old(ClientState()), requestID, r);
              ClientState() == q.client && posted == old(posted) + q.sends
      ensures requestID in conns && conns[requestID].reading == !r.err
    {
      var conn := conns[requestID];
      if r.chunk != [] {
        conn := conn.(read := conn.read + [r.chunk]);
        posted := posted + [Data(requestID, r.chunk)];
      }
      if r.err {
        posted := posted + [Disconnect(requestID)];
        activeConns := activeConns - {requestID};
        conn := conn.(reading := false);
      }
      conns := conns[requestID := conn];
    }

    /** `rooms(i)` is how many bytes conn.Write takes of the i-th message. */
    method HandleClientMessages(messages: seq<TCPMessage>, rooms: nat -> nat)
      modifies this`activeConns, this`conns
      ensures ClientState() == ClientMessages(old(ClientState()), messages, rooms)
    {
      for i := 0 to |messages|
        invariant ClientState() == ClientMessages(old(ClientState()), messages[..i], rooms)
      {
        assert messages[..i + 1][..i] == messages[..i];
        match messages[i] {
          case Data(id, data) => HandleData(id, data, rooms(i));
          case Disconnect(id) => HandleDisconnect(id);
          case Error(id, _) => HandleDisconnect(id);
          case _ =>
        }
      }
      assert messages[..|messages|] == messages;
    }

    method HandleData(requestID: uint32, data: bytes, room: nat)
      modifies this`activeConns, this`conns
      ensures ClientState() == ClientMessage(old(ClientState()), Data(requestID, data), room)
    {
      if requestID !in activeConns || requestID !in conns {
        return;
      }
      var conn := conns[requestID];
      var n := Min(room, |data|);
      conns := conns[requestID := conn.(written := conn.written + [data[..n]])];
      if n < |data| {
        HandleDisconnect(requestID);
      }
    }

    method HandleDisconnect(requestID: uint32)
      modifies this`activeConns, this`conns
      ensures ClientState() == CloseConn(old(ClientState()), requestID)
    {
      if requestID !in activeConns {
        assert activeConns - {requestID} == activeConns;
        return;
      }
      activeConns := activeConns - {requestID};
      if requestID in conns {
        conns := conns[requestID := conns[requestID].(closed := true)];
      }
    }

    /** StartHost's loop over the messages that arrive before Stop. */
    method StartHost(messages: seq<TCPMessage>)
      requires !stopped
      modifies this`reqChans, this`lives, this`lost
      ensures HostState() == DispatchAll(old(HostState()), messages)
    {
      for i := 0 to |messages|
        invariant HostState() == DispatchAll(old(HostState()), messages[..i])
      {
        assert messages[..i + 1][..i] == messages[..i];
        DispatchOne(messages[i]);
      }
      assert messages[..|messages|] == messages;
    }

    method DispatchOne(tcpMsg: TCPMessage)
      requires !stopped
      modifies this`reqChans, this`lives, this`lost
      ensures HostState() == Dispatch(old(HostState()), tcpMsg)
    {
      var id := tcpMsg.requestID;
      if tcpMsg.Connect? {
        reqChans := reqChans[id := |lives|];
        lives := lives + [Lifecycle(id, [], false, Waiting, [], [], Unstarted, [])];
      }
      if id in reqChans && reqChans[id] < |lives| {
        var k := reqChans[id];
        if |lives[k].queue| < QUEUE_SIZE {
          lives := lives[k := lives[k].(queue := lives[k].queue + [tcpMsg])];
        } else {
          lost := lost + {id};
        }
      }
    }

    /**
     Runs the k-th goroutine until it returns or waits on an empty channel that is open; `steps` counts the receive
     operations that come back, the last of which may find the channel closed.
     */
    method HandleConnectionLifecycle(k: nat, dialError: Option<bytes>, rooms: nat -> nat) returns (steps: nat)
      requires k < |lives|
      modifies this`reqChans, this`lives, this`posted
      ensures var r := LifeSteps(old(HostState()), k, dialError, rooms, steps);
              HostState() == r.host && posted == old(posted) + r.sends
      ensures |lives| == |old(lives)| && (lives[k].phase == Done || (lives[k].queue == [] && !lives[k].closed))
    {
      hide LifeNext;
      steps := 0;
      ghost var h := HostState();
      while lives[k].phase != Done && (lives[k].queue != [] || lives[k].closed)
        invariant |lives| == |h.lives|
        invariant HostState() == LifeSteps(h, k, dialError, rooms, steps).host
        invariant posted == old(posted) + LifeSteps(h, k, dialError, rooms, steps).sends
        decreases |lives[k].queue|, lives[k].phase != Done
      {
        OneReceive(k, dialError, rooms(steps));
        steps := steps + 1;
      }
    }

    /** The next message, or the end of a channel that is closed and drained. */
    method OneReceive(k: nat, dialError: Option<bytes>, room: nat)
      requires k < |lives| && lives[k].phase != Done && (lives[k].queue != [] || lives[k].closed)
      modifies this`reqChans, this`lives, this`posted
      ensures var r := LifeNext(old(HostState()), k, dialError, room);
              HostState() == r.host && posted == old(posted) + r.sends
      ensures |lives| == |old(lives)|
      ensures |lives[k].queue| < |old(lives)[k].queue| || (lives[k].queue == [] && lives[k].phase == Done)
    {
      var requestID := lives[k].id;
      if lives[k].queue == [] {
        lives := lives[k := lives[k].(phase := Done)];
        reqChans := reqChans - {requestID};
        return;
      }
      var msg := lives[k].queue[0];
      var l := lives[k].(queue := lives[k].queue[1..], consumed := lives[k].consumed + [msg]);
      var over := false;
      if l.phase == Waiting {
        if !msg.Connect? {
          over := true;
        } else if dialError.Some? {
          l := l.(reader := Refused(dialError.value));
          posted := posted + [Error(requestID, dialError.value)];
          over := true;
        } else {
          l := l.(phase := Running, reader := Reading);
        }
      } else if msg.Data? {
        var n := Min(room, |msg.data|);
        l := l.(written := l.written + [msg.data[..n]]);
        over := n < |msg.data|;
      } else {
        over := msg.Disconnect?;
      }
      if over {
        l := l.(phase := Done);
        reqChans := reqChans - {requestID};
      }
      lives := lives[k := l];
    }

    /** `refused(i)` is whether SendMessage fails for the data of the i-th read. */
    method ForwardFromTarget(k: nat, results: seq<ReadResult>, refused: nat -> bool)
      requires k < |lives| && lives[k].reader == Reading
      modifies this`lives, this`posted
      ensures var r := TargetReads(old(HostState()), k, results, refused);
              HostState() == r.host && posted == old(posted) + r.sends
    {
      hide TargetRead;
      ghost var h := HostState();
      hide TargetReads;
      NoTargetReads(h, k, refused);
      for i := 0 to |results|
        invariant |lives| == |h.lives| && lives[k].reader == Reading
        invariant HostState() == TargetReads(h, k, results[..i], refused).host
        invariant posted == old(posted) + TargetReads(h, k, results[..i], refused).sends
      {
        TargetReadsTurn(h, k, results, refused, i);
        ghost var sofar := HostState();
        assert sofar == TargetReads(h, k, results[..i], refused).host;
        var over := OneTargetRead(k, results[i], refused(i));
        if over {
          TargetReadsOver(h, k, results, refused, i + 1);
          return;
        }
      }
      assert results[..|results|] == results;
    }

    method OneTargetRead(k: nat, r: ReadResult, refused: bool) returns (over: bool)
      requires k < |lives| && lives[k].reader == Reading
      modifies this`lives, this`posted
      ensures var q := TargetRead(old(HostState()), k, r, refused);
              HostState() == q.host && posted == old(posted) + q.sends
      ensures |lives| == |old(lives)| && (lives[k].reader == Reading <==> !over)
    {
      var l := lives[k];
      over := r.err;
      if r.chunk != [] {
        posted := posted + [Data(l.id, r.chunk)];
        l := l.(read := l.read + [r.chunk]);
        if refused {
          lives := lives[k := l.(reader := Broken)];
          return true;
        }
      }
      if r.err {
        posted := posted + [Disconnect(l.id)];
        l := l.(reader := Finished);
      }
      lives := lives[k := l];
    }
  }
}
