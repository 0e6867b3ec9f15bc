/**
 What is read can still be written: from every reachable state of the tunnel there is a way for the transport, the
 dispatch loop and the goroutine of a connection to go on that brings everything read so far to the other end.
 */
module TunnelProgress {
  import opened Bytes
  import opened Framing
  import opened TcpProxy
  import opened Tunnel
  import opened TunnelRuns
  import L = Link
  import P = Pipe

  // ---- towards the target

  /** Nothing is read, lost, refused or stopped on the way up. */
  predicate GoesUp(a: Action)
  {
    a.FrameUp? || a.Dispatches? || (a.Lives? && a.dialError.None?)
  }

  /** Nothing of the connection has been lost, and its goroutine goes on unless it has written everything. */
  ghost predicate Underway(s: System, id: uint32)
  {
    && !s.host.stopped && id in s.client.conns && id !in s.host.lost && id !in s.up.link.cut
    && forall k :: 0 <= k < |s.host.lives| && s.host.lives[k].id == id && s.host.lives[k].phase == Done ==>
         s.host.lives[k].written == s.client.conns[id].read
  }

  ghost predicate HasQueue(h: Host, id: uint32)
  {
    id in h.reqChans && h.reqChans[id] < |h.lives| && h.lives[h.reqChans[id]].queue != []
  }

  ghost function QueueLength(h: Host, id: uint32): nat
  {
    if HasQueue(h, id) then |h.lives[h.reqChans[id]].queue| else 0
  }

  function Room(m: TCPMessage): nat
  {
    if m.Data? then |m.data| else 0
  }

  /** The queue is served first, so that it never overflows, then a message is dispatched, then a frame delivered. */
  ghost function NextUp(s: System, id: uint32): Action
  {
    if HasQueue(s.host, id) then
      var k := s.host.reqChans[id];
      Lives(k, None, Room(s.host.lives[k].queue[0]))
    else if s.up.link.inbox != [] then Dispatches
    else FrameUp(id)
  }

  ghost predicate QuietUp(s: System, id: uint32)
  {
    !HasQueue(s.host, id) && s.up.link.inbox == [] && At(s.up.link.wire, id) == []
  }

  lemma UpAfter(c: P.Codec, s: System, a: Action)
    requires GoesUp(a)
    ensures var s' := Step(c, s, a);
            && s'.client == s.client
            && s'.up == (match a
                         case FrameUp(id) => s.up.(link := L.Deliver(s.up.link, id))
                         case Dispatches =>
                           if s.host.stopped || s.up.link.inbox == [] then s.up else s.up.(link := L.Take(s.up.link))
                         case _ => s.up)
  {
    hide P.PostAll;
    hide L.Deliver;
    hide L.Take;
    hide Dispatch;
    hide LifeNext;
  }

  lemma DeliverShortens(l: L.Link, id: uint32)
    requires At(l.wire, id) != []
    ensures |At(L.Deliver(l, id).wire, id)| < |At(l.wire, id)| && L.Deliver(l, id).cut == l.cut
  {
  }

  /** A disconnect is the last message that the client sends on an ID, after all that was read. */
  lemma DisconnectAfterAll(client: Client, id: uint32, taken: seq<TCPMessage>, m: TCPMessage)
    requires id in client.conns && taken + [m] <= UpLog(client, id) && m.Disconnect?
    ensures DataOf(taken) == client.conns[id].read
  {
    var conn, n := client.conns[id], |taken|;
    var head := [Connect(id, conn.address)] + Datas(id, conn.read);
    assert (taken + [m])[n] == UpLog(client, id)[n] == m;
    assert !conn.reading && n == |head|;
    assert taken == UpLog(client, id)[..n] == head;
    DataOfUpLog(client, id);
    DataOfSnoc(head, Disconnect(id));
  }

  /** The k-th goroutine has received the head of its queue: it goes on, or that was the disconnect. */
  ghost predicate Received(h: Host, h': Host, k: nat)
    requires k < |h.lives| && h.lives[k].queue != []
  {
    var l := h.lives[k];
    && |h'.lives| == |h.lives| && h'.stopped == h.stopped && h'.lost == h.lost
    && (forall i :: 0 <= i < |h.lives| && i != k ==> h'.lives[i] == h.lives[i])
    && h'.lives[k].id == l.id && h'.lives[k].queue == l.queue[1..]
    && (h'.lives[k].phase == Done ==>
          l.phase == Running && l.queue[0].Disconnect? && h'.lives[k].written == l.written)
    && (h'.reqChans == h.reqChans || h'.reqChans == h.reqChans - {l.id})
  }

  lemma Serves(h: Host, k: nat)
    requires k < |h.lives| && InPhase(h.lives[k]) && h.lives[k].phase != Done && h.lives[k].queue != []
    ensures Received(h, LifeNext(h, k, None, Room(h.lives[k].queue[0])).host, k)
  {
    hide Write;
  }

  lemma AllServed(client: Client, id: uint32, l: Lifecycle, d: seq<TCPMessage>)
    requires id in client.conns && LifeOK(l, d, false) && d <= UpLog(client, id)
    requires l.phase == Running && l.queue != [] && l.queue[0].Disconnect?
    ensures l.written == client.conns[id].read
  {
    assert l.consumed + [l.queue[0]] <= l.consumed + l.queue;
    DisconnectAfterAll(client, id, l.consumed, l.queue[0]);
    hide UpLog;
    hide DataOf;
    hide Subsequence;
    hide Cut;
    hide DisconnectIsLast;
  }

  lemma TakenOfLog(c: P.Codec, s: System, id: uint32)
    requires Inv(c, s)
    ensures P.TakenLog(s.up, id) <= UpLog(s.client, id)
  {
    hide P.Inv;
    hide UpLog;
    hide LivesOK;
    hide DownOK;
    hide LocalsOK;
    hide ChansOK;
    hide P.TakenOn;
  }

  lemma LifeIsOK(c: P.Codec, s: System, k: nat)
    requires Inv(c, s) && k < |s.host.lives|
    ensures var l := s.host.lives[k]; LifeOK(l, P.TakenLog(s.up, l.id), l.id in s.host.lost)
  {
    hide P.Inv;
    hide LifeOK;
    hide P.TakenLog;
  }

  lemma ServedIsRunning(c: P.Codec, s: System, id: uint32)
    requires Inv(c, s) && id in s.host.reqChans
    ensures s.host.reqChans[id] < |s.host.lives| && s.host.lives[s.host.reqChans[id]].phase != Done
  {
    hide P.Inv;
    hide LivesOK;
    hide UpOK;
    hide DownOK;
    hide LocalsOK;
  }

  lemma RunningHasWritten(c: P.Codec, s: System, id: uint32)
    requires Inv(c, s) && Underway(s, id) && HasQueue(s.host, id)
    ensures var l := s.host.lives[s.host.reqChans[id]];
            && l.id == id && l.phase != Done && InPhase(l)
            && (l.phase == Running && l.queue[0].Disconnect? ==> l.written == s.client.conns[id].read)
  {
    ChannelOf(c, s, id);
    ServedIsRunning(c, s, id);
    var k := s.host.reqChans[id];
    EveryPhase(c, s, k);
    LifeIsOK(c, s, k);
    TakenOfLog(c, s, id);
    hide Inv;
    hide UpLog;
    hide LifeOK;
    hide P.TakenLog;
    hide InPhase;
    if s.host.lives[k].phase == Running && s.host.lives[k].queue[0].Disconnect? {
      AllServed(s.client, id, s.host.lives[k], P.TakenLog(s.up, id));
    }
  }

  // ---- one step on the way up

  lemma ServedOn(s: System, s': System, id: uint32)
    requires Underway(s, id) && HasQueue(s.host, id)
    requires s'.up == s.up && s'.client == s.client
    requires var k := s.host.reqChans[id];
             var l := s.host.lives[k];
             && l.id == id && Received(s.host, s'.host, k)
             && (l.phase == Running && l.queue[0].Disconnect? ==> l.written == s.client.conns[id].read)
    ensures Underway(s', id) && QueueLength(s'.host, id) < QueueLength(s.host, id)
  {
  }

  lemma ServesOn(c: P.Codec, s: System, id: uint32)
    requires Inv(c, s) && Underway(s, id) && HasQueue(s.host, id)
    ensures var s' := Step(c, s, NextUp(s, id));
            && Underway(s', id) && s'.up == s.up && s'.client == s.client
            && QueueLength(s'.host, id) < QueueLength(s.host, id)
  {
    var k := s.host.reqChans[id];
    var a := NextUp(s, id);
    UpAfter(c, s, a);
    HostAfter(c, s, a);
    RunningHasWritten(c, s, id);
    Serves(s.host, k);
    ServedOn(s, Step(c, s, a), id);
    hide Inv;
    hide Step;
    hide LifeNext;
    hide InPhase;
    hide Underway;
    hide Received;
  }

  lemma DispatchesOn(c: P.Codec, s: System, id: uint32)
    requires P.Lawful(c) && Inv(c, s) && Underway(s, id) && !HasQueue(s.host, id) && s.up.link.inbox != []
    ensures var s' := Step(c, s, Dispatches);
            && Underway(s', id) && s'.client == s.client
            && At(s'.up.link.wire, id) == At(s.up.link.wire, id) && |s'.up.link.inbox| < |s.up.link.inbox|
  {
    UpAfter(c, s, Dispatches);
    DispatchesQueue(c, s);
    LostStep(c, s, Dispatches, id);
    var m, h' := HostMessage(c, s), Step(c, s, Dispatches).host;
    if m.Some? {
      QueuedFinishesNone(s.host, h', m.value);
    }
    hide P.Lawful;
    hide Inv;
    hide Step;
    hide Queued;
    hide HostMessage;
  }

  lemma QueuedFinishesNone(h: Host, h': Host, m: TCPMessage)
    requires Queued(h, h', m)
    ensures h'.stopped == h.stopped
    ensures forall k :: 0 <= k < |h'.lives| && h'.lives[k].phase == Done ==>
              k < |h.lives| && h.lives[k].phase == Done && h'.lives[k].id == h.lives[k].id
              && h'.lives[k].written == h.lives[k].written
  {
  }

  lemma DeliversOn(c: P.Codec, s: System, id: uint32)
    requires Underway(s, id) && At(s.up.link.wire, id) != []
    ensures var s' := Step(c, s, FrameUp(id));
            && Underway(s', id) && s'.client == s.client
            && |At(s'.up.link.wire, id)| < |At(s.up.link.wire, id)|
  {
    UpAfter(c, s, FrameUp(id));
    HostAfter(c, s, FrameUp(id));
    DeliverShortens(s.up.link, id);
    hide Step;
    hide L.Deliver;
  }

  /** At rest, everything read has been written. */
  lemma QuietMeansWritten(c: P.Codec, s: System, id: uint32) returns (k: nat)
    requires Inv(c, s) && id != 0 && Underway(s, id) && QuietUp(s, id)
    ensures k < |s.host.lives| && s.host.lives[k].id == id && s.host.lives[k].written == s.client.conns[id].read
  {
    AllTakenUp(c, s, id);
    k := IsServed(c, s, id);
    var l := s.host.lives[k];
    if l.phase != Done {
      LifeIsOK(c, s, k);
      AllConsumed(l, P.TakenLog(s.up, id));
      DataOfUpLog(s.client, id);
      QueueIsHis(c, s, k);
    }
    hide Inv;
    hide UpLog;
    hide LifeOK;
    hide P.TakenLog;
    hide DataOf;
  }

  lemma AllConsumed(l: Lifecycle, d: seq<TCPMessage>)
    requires LifeOK(l, d, false) && l.phase != Done
    ensures l.queue == [] ==> l.written == DataOf(d)
  {
    hide Subsequence;
    hide Cut;
    hide DataOf;
    if l.queue == [] {
      assert l.consumed + l.queue == l.consumed;
    }
  }

  lemma QueueIsHis(c: P.Codec, s: System, k: nat)
    requires Inv(c, s) && k < |s.host.lives| && s.host.lives[k].phase != Done
    ensures HasQueue(s.host, s.host.lives[k].id) <==> s.host.lives[k].queue != []
  {
    hide P.Inv;
    hide LivesOK;
    hide UpOK;
    hide DownOK;
    hide LocalsOK;
  }

  /** Once something has been taken for an ID, a goroutine has been started for it. */
  lemma IsServed(c: P.Codec, s: System, id: uint32) returns (k: nat)
    requires Inv(c, s) && id != 0 && id in s.client.conns && P.TakenLog(s.up, id) == UpLog(s.client, id)
    ensures k < |s.host.lives| && s.host.lives[k].id == id
  {
    hide P.Inv;
    hide P.TakenLog;
    hide LifeOK;
    assert UpLog(s.client, id) != [];
    assert !NoLife(s.host, id);
    k :| 0 <= k < |s.host.lives| && s.host.lives[k].id == id;
  }

  predicate AllUp(more: seq<Action>)
  {
    forall i :: 0 <= i < |more| ==> GoesUp(more[i]) && Fits(more[i])
  }

  lemma RunSnoc(c: P.Codec, run: seq<Action>, a: Action)
    requires GoesUp(a) || GoesDown(a)
    ensures Run(c, run + [a]) == Step(c, Run(c, run), a)
    ensures Fits(a) && Allowed(run) ==> Allowed(run + [a])
  {
    assert (run + [a])[..|run|] == run;
  }

  /**
   Every chunk read from an accepted connection can reach its target: in every reachable state in which the proxy has
   not been stopped, nothing of the connection has been lost on the way up, and its goroutine, if it has been started,
   has not ended early, there is a way to go on without any further read after which all of it has been written.
   */
  lemma {:induction false} UpArrives(c: P.Codec, run: seq<Action>, id: uint32) returns (more: seq<Action>)
    requires P.Lawful(c) && Allowed(run) && id != 0 && Underway(Run(c, run), id)
    ensures AllUp(more) && Allowed(run + more) && Run(c, run + more).client == Run(c, run).client
    ensures exists k :: 0 <= k < |Run(c, run + more).host.lives| && Run(c, run + more).host.lives[k].id == id
                        && Run(c, run + more).host.lives[k].written == Run(c, run).client.conns[id].read
    decreases |At(Run(c, run).up.link.wire, id)|, |Run(c, run).up.link.inbox|, QueueLength(Run(c, run).host, id)
  {
    hide P.Lawful;
    hide Inv;
    hide Step;
    hide Run;
    hide Underway;
    hide Allowed;
    hide HasQueue;
    hide QueueLength;
    hide Connections;
    RunKeepsInv(c, run);
    var s := Run(c, run);
    if QuietUp(s, id) {
      var k := QuietMeansWritten(c, s, id);
      more := [];
      assert run + [] == run;
    } else {
      var a := NextUp(s, id);
      RunSnoc(c, run, a);
      if HasQueue(s.host, id) {
        ServesOn(c, s, id);
      } else if s.up.link.inbox != [] {
        DispatchesOn(c, s, id);
      } else {
        DeliversOn(c, s, id);
      }
      var rest := UpArrives(c, run + [a], id);
      more := [a] + rest;
      assert run + more == run + [a] + rest;
    }
  }

  // ---- towards the local connection

  predicate GoesDown(a: Action)
  {
    a.FrameDown? || a.ClientTakes?
  }

  /** The goroutine's connection is active, or has been written everything. */
  ghost predicate UnderwayDown(s: System, k: nat)
  {
    && k < |s.host.lives|
    && var l := s.host.lives[k];
       && l.id in s.client.conns && l.id !in s.down.link.cut
       && (l.reader.Unstarted? || l.reader.Refused? ==> l.read == [])
       && (l.id in s.client.activeConns || s.client.conns[l.id].written == l.read)
  }

  ghost function NextDown(c: P.Codec, s: System, id: uint32): Action
  {
    if s.down.link.inbox != [] then
      var m := ClientTaking(c, s);
      ClientTakes(if m.Some? then Room(m.value) else 0)
    else FrameDown(id)
  }

  lemma DownAfter(c: P.Codec, s: System, a: Action)
    requires GoesDown(a)
    ensures var s' := Step(c, s, a);
            && s'.host == s.host
            && s'.down == (match a
                           case FrameDown(id) => s.down.(link := L.Deliver(s.down.link, id))
                           case _ => if s.down.link.inbox == [] then s.down else s.down.(link := L.Take(s.down.link)))
  {
    hide P.PostAll;
    hide L.Deliver;
    hide L.Take;
    hide ClientMessage;
  }

  /** The next message taken follows those taken before in what its goroutine has posted. */
  lemma TakenInOrder(c: P.Codec, s: System, k: nat)
    requires P.Lawful(c) && Inv(c, s) && k < |s.host.lives|
    ensures var id, m := s.host.lives[k].id, ClientTaking(c, s);
            m.Some? && m.value.requestID == id ==>
              P.TakenLog(s.down, id) + [m.value] <= DownLog(s.host.lives[k])
  {
    hide P.Inv;
    hide P.Lawful;
    hide LivesOK;
    hide UpOK;
    hide LocalsOK;
    hide ChansOK;
    hide DownLog;
    if s.down.link.inbox != [] {
      P.TakeNext(c, s.down);
      P.TakenWithinLog(c, s.down, s.down.link.inbox[0].requestID);
    }
  }

  /** A message that shuts the connection comes after everything that was read from the target. */
  lemma ShutsAfterAll(l: Lifecycle, taken: seq<TCPMessage>, m: TCPMessage)
    requires taken + [m] <= DownLog(l) && (m.Disconnect? || m.Error?)
    requires l.reader.Unstarted? || l.reader.Refused? ==> l.read == []
    ensures DataOf(taken) == l.read
  {
    var n := |taken|;
    assert (taken + [m])[n] == DownLog(l)[n] == m;
    if l.reader.Refused? {
      assert taken == [];
    } else {
      assert l.reader.Finished?;
      assert DownLog(l)[..n] == Datas(l.id, l.read) == taken;
      DataOfDatas(l.id, l.read);
    }
  }

  lemma DataOfAllPosted(l: Lifecycle)
    requires l.reader.Unstarted? || l.reader.Refused? ==> l.read == []
    ensures DataOf(DownLog(l)) == l.read
  {
    DataOfDatas(l.id, l.read);
    match l.reader
    case Finished => DataOfSnoc(Datas(l.id, l.read), Disconnect(l.id));
    case Refused(e) =>
      assert [Error(l.id, e)][..0] == [];
    case _ =>
  }

  lemma ActiveWritten(c: P.Codec, s: System, id: uint32)
    requires Inv(c, s) && id in s.client.conns && id in s.client.activeConns
    ensures s.client.conns[id].written == DataOf(P.TakenLog(s.down, id))
  {
    hide P.Inv;
    hide P.TakenLog;
    hide DataOf;
    hide UpOK;
    hide LivesOK;
    hide DownOK;
    assert WrittenOK(s.client.conns[id], true, P.TakenLog(s.down, id));
    hide Cut;
  }

  /** What a message with room for all of it does to the connection id. */
  lemma TakesAll(client: Client, m: TCPMessage, id: uint32)
    requires id in client.conns
    ensures var client' := ClientMessage(client, m, Room(m));
            && id in client'.conns
            && (id in client.activeConns ==>
                  id in client'.activeConns
                  || (m.requestID == id && (m.Disconnect? || m.Error?)
                      && client'.conns[id].written == client.conns[id].written))
            && (id !in client.activeConns ==>
                  id !in client'.activeConns && client'.conns[id].written == client.conns[id].written)
  {
    hide Write;
  }

  lemma TakesOn(c: P.Codec, s: System, k: nat)
    requires P.Lawful(c) && Inv(c, s) && UnderwayDown(s, k) && s.down.link.inbox != []
    ensures var id := s.host.lives[k].id;
            var s' := Step(c, s, NextDown(c, s, id));
            && UnderwayDown(s', k) && s'.host == s.host
            && At(s'.down.link.wire, id) == At(s.down.link.wire, id) && |s'.down.link.inbox| < |s.down.link.inbox|
  {
    var l := s.host.lives[k];
    var a := NextDown(c, s, l.id);
    DownAfter(c, s, a);
    ClientAfter(c, s, a);
    TakenInOrder(c, s, k);
    var m := ClientTaking(c, s);
    if m.Some? {
      TakesAll(s.client, m.value, l.id);
      if l.id in s.client.activeConns {
        ActiveWritten(c, s, l.id);
        if m.value.requestID == l.id && (m.value.Disconnect? || m.value.Error?) {
          ShutsAfterAll(l, P.TakenLog(s.down, l.id), m.value);
        }
      }
    }
    hide P.Lawful;
    hide Inv;
    hide Step;
    hide ClientMessage;
    hide ClientTaking;
    hide P.TakenLog;
    hide DataOf;
    hide DownLog;
  }

  lemma DeliversDown(c: P.Codec, s: System, k: nat)
    requires UnderwayDown(s, k) && At(s.down.link.wire, s.host.lives[k].id) != []
    ensures var id := s.host.lives[k].id;
            var s' := Step(c, s, FrameDown(id));
            && UnderwayDown(s', k) && s'.host == s.host
            && |At(s'.down.link.wire, id)| < |At(s.down.link.wire, id)|
  {
    var id := s.host.lives[k].id;
    DownAfter(c, s, FrameDown(id));
    ClientAfter(c, s, FrameDown(id));
    DeliverShortens(s.down.link, id);
    hide Step;
    hide L.Deliver;
  }

  lemma QuietDownMeansWritten(c: P.Codec, s: System, k: nat)
    requires Inv(c, s) && UnderwayDown(s, k)
    requires s.down.link.inbox == [] && At(s.down.link.wire, s.host.lives[k].id) == []
    ensures s.client.conns[s.host.lives[k].id].written == s.host.lives[k].read
  {
    var l := s.host.lives[k];
    AllTakenDown(c, s, k);
    DataOfAllPosted(l);
    if l.id in s.client.activeConns {
      ActiveWritten(c, s, l.id);
    }
    hide Inv;
    hide P.TakenLog;
    hide DataOf;
    hide DownLog;
  }

  predicate AllDown(more: seq<Action>)
  {
    forall i :: 0 <= i < |more| ==> GoesDown(more[i])
  }

  lemma {:induction false} DownArrives(c: P.Codec, run: seq<Action>, k: nat) returns (more: seq<Action>)
    requires P.Lawful(c) && Allowed(run) && UnderwayDown(Run(c, run), k)
    ensures AllDown(more) && Allowed(run + more) && Run(c, run + more).host == Run(c, run).host
    ensures var l := Run(c, run).host.lives[k];
            l.id in Run(c, run + more).client.conns && Run(c, run + more).client.conns[l.id].written == l.read
    decreases |At(Run(c, run).down.link.wire, Run(c, run).host.lives[k].id)|, |Run(c, run).down.link.inbox|
  {
    hide P.Lawful;
    hide Inv;
    hide Step;
    hide Run;
    hide Allowed;
    hide Connections;
    RunKeepsInv(c, run);
    var s := Run(c, run);
    var id := s.host.lives[k].id;
    if s.down.link.inbox == [] && At(s.down.link.wire, id) == [] {
      QuietDownMeansWritten(c, s, k);
      more := [];
      assert run + [] == run;
    } else {
      var a := NextDown(c, s, id);
      RunSnoc(c, run, a);
      if s.down.link.inbox != [] {
        TakesOn(c, s, k);
      } else {
        DeliversDown(c, s, k);
      }
      var rest := DownArrives(c, run + [a], k);
      more := [a] + rest;
      assert run + more == run + [a] + rest;
    }
  }

  // ---- in terms of the actions

  /**
   In every reachable state everything read from an accepted connection can still be written to its target, without
   any further read, if the proxy has not been stopped, nothing of the connection has been lost on the way up, and its
   goroutine has not ended.
   */
  lemma UpCanArrive(c: P.Codec, run: seq<Action>, id: uint32)
    requires P.Lawful(c) && Allowed(run) && Accepted(run, id)
    requires Stops !in run && !Overflowed(c, run, id) && !CutUp(run, id)
    requires forall k: nat :: Exists(c, run, k) && Run(c, run).host.lives[k].id == id ==> !Ended(c, run, k)
    ensures exists more, k :: CarriesUp(c, run, more, k, id)
  {
    var s := Run(c, run);
    ReadExactly(c, run, id);
    LostExactly(c, run, id);
    CutExactly(c, run, id);
    hide CutUp;
    hide CutDown;
    StoppedExactly(c, run);
    forall k | 0 <= k < |s.host.lives| && s.host.lives[k].id == id
      ensures s.host.lives[k].phase != Done
    {
      assert Exists(c, run, k);
      LivedExactly(c, run, k);
    }
    var more := UpArrives(c, run, id);
    var k :| 0 <= k < |Run(c, run + more).host.lives| && Run(c, run + more).host.lives[k].id == id
             && Run(c, run + more).host.lives[k].written == s.client.conns[id].read;
    LivedExactly(c, run + more, k);
    assert CarriesUp(c, run, more, k, id);
    hide Run;
    hide P.Lawful;
    hide Allowed;
    hide LocalChunks;
    hide TargetWrites;
    hide Overflowed;
    hide Ended;
  }

  /** The steps `more` bring everything read so far on id to the target of the k-th goroutine, which is its own. */
  ghost predicate CarriesUp(c: P.Codec, run: seq<Action>, more: seq<Action>, k: nat, id: uint32)
  {
    && AllUp(more) && Allowed(run + more) && Exists(c, run + more, k) && Run(c, run + more).host.lives[k].id == id
    && TargetWrites(c, run + more, k) == LocalChunks(run, id)
  }

  /** The steps `more` bring everything read so far from the k-th goroutine's target to the local connection id. */
  ghost predicate CarriesDown(c: P.Codec, run: seq<Action>, more: seq<Action>, k: nat, id: uint32)
  {
    AllDown(more) && Allowed(run + more) && LocalWrites(c, run + more, id) == TargetChunks(c, run, k)
  }

  /**
   In every reachable state everything read from a target can still be written to the local connection, if nothing of
   the connection has been lost on the way down and the connection has not been shut or left by a failed read.
   */
  lemma DownCanArrive(c: P.Codec, run: seq<Action>, k: nat)
    requires P.Lawful(c) && Allowed(run) && Exists(c, run, k)
    requires var id := Run(c, run).host.lives[k].id;
             !CutDown(c, run, id) && !Failed(run, id) && !ShutByMessage(c, run, id)
    ensures exists more :: CarriesDown(c, run, more, k, Run(c, run).host.lives[k].id)
  {
    var s := Run(c, run);
    var id := s.host.lives[k].id;
    RecordedIntegrity(c, run, k);
    CutExactly(c, run, id);
    hide CutUp;
    hide CutDown;
    ClosedExactly(c, run, id);
    LivedExactly(c, run, k);
    var more := DownArrives(c, run, k);
    ClosedExactly(c, run + more, id);
    assert CarriesDown(c, run, more, k, id);
    hide Run;
    hide P.Lawful;
    hide Allowed;
    hide TargetChunks;
    hide LocalWrites;
    hide Failed;
    hide ShutByMessage;
    hide Dialled;
    hide Cut;
    hide Subsequence;
  }
}
