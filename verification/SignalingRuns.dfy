/**
 What holds over every run of the signaling server: who belongs to a session, where relayed messages
 go, what is left of a session whose host is gone, and what becomes of every ICE candidate.
 */
module SignalingRuns {
  import S = SessionStore
  import R = RateLimiter
  import opened Bytes
  import opened Signaling

  lemma StartInv()
    ensures Inv(START)
  {
  }

  lemma {:induction false} RunKeepsInv(s: Server, run: seq<Action>)
    requires Inv(s) && DisciplinedRun(s, run)
    ensures Inv(Run(s, run).server)
  {
    hide Inv;
    hide Disciplined;
    hide Step;
    if run != [] {
      RunKeepsInv(s, run[..|run| - 1]);
      StepKeepsInv(Run(s, run[..|run| - 1]).server, run[|run| - 1]);
    }
  }

  /**
   Membership in every reachable state: a session's host is the live connection that holds it as host, a
   slot's client is the live connection with that session and client ID, every open connection with a role has
   its place, and every stored session has a host.
   */
  lemma MembershipHolds(run: seq<Action>, id: string, clientID: string, c: nat)
    requires DisciplinedRun(START, run)
    ensures var s := Run(START, run).server;
            && (id in s.store.sessions ==> id in s.peers)
            && (id in s.peers ==> HostOf(s, id))
            && (id in s.peers && clientID in s.peers[id].clients ==> ClientOf(s, id, clientID))
            && (c in s.conns && s.conns[c].isHost ==>
                  s.conns[c].sessionID in s.peers && s.peers[s.conns[c].sessionID].host == c)
            && (c in s.conns && s.conns[c].isClient && s.conns[c].open ==>
                  && s.conns[c].sessionID in s.peers
                  && s.conns[c].clientID in s.peers[s.conns[c].sessionID].clients
                  && s.peers[s.conns[c].sessionID].clients[s.conns[c].clientID] == c)
  {
    StartInv();
    RunKeepsInv(START, run);
    hide Run;
    var s := Run(START, run).server;
    hide S.Indexed;
    assert c in s.conns ==> Placed(s, c);
  }

  /**
   One role per connection is needed, for a create and for a join: of those that are granted, with fresh IDs
   and token, it is exactly those of a connection without a role that keep the invariant.
   */
  lemma RoleDecidesCreate(s: Server, c: nat, env: Env)
    requires Inv(s) && c in s.conns && s.conns[c].open && CreateGranted(s, c, env) && FreshSession(s, env)
    ensures Inv(HandleCreate(s, c, env).server) <==> !HasRole(s, c)
  {
    hide R.Check;
    hide S.Indexed;
    if HasRole(s, c) {
      assert Placed(s, c);
      var s' := HandleCreate(s, c, env).server;
      var was := s.conns[c].sessionID;
      assert was in s'.peers && was in s.issued;
      if s.conns[c].isHost {
        assert !HostOf(s', was);
      } else {
        assert !ClientOf(s', was, s.conns[c].clientID);
      }
    } else {
      CreateKeepsInv(s, c, env);
    }
    hide Members;
  }

  lemma RoleDecidesJoin(s: Server, c: nat, msg: SignalMessage, env: Env)
    requires Inv(s) && c in s.conns && s.conns[c].open && JoinGranted(s, msg, env) && FreshClient(s, env)
    ensures Inv(HandleJoin(s, c, msg, env).server) <==> !HasRole(s, c)
  {
    hide S.GetByToken;
    hide S.Indexed;
    if HasRole(s, c) {
      assert Placed(s, c);
      var s' := HandleJoin(s, c, msg, env).server;
      var was := s.conns[c].sessionID;
      if s.conns[c].isHost {
        assert !HostOf(s', was);
      } else {
        assert !ClientOf(s', was, s.conns[c].clientID);
      }
    } else {
      JoinKeepsInv(s, c, msg, env);
    }
    hide Members;
  }

  /** So a step with fresh IDs keeps the invariant exactly if it gives no connection a second role. */
  lemma DisciplineIsExact(s: Server, a: Action)
    requires Inv(s) && (MakesHost(s, a) ==> FreshSession(s, a.env)) && (MakesClient(s, a) ==> FreshClient(s, a.env))
    ensures Inv(Step(s, a).server) <==> (MakesHost(s, a) || MakesClient(s, a) ==> !HasRole(s, a.c))
  {
    if MakesHost(s, a) {
      RoleDecidesCreate(s, a.c, a.env);
    } else if MakesClient(s, a) {
      RoleDecidesJoin(s, a.c, a.msg, a.env);
    } else {
      StepKeepsInv(s, a);
    }
    hide Inv;
    hide HandleCreate;
    hide HandleJoin;
  }

  /** For example, a host that joins a second session loses track of its own. */
  lemma SecondRoleBreaksMembership(s: Server, c: nat, msg: SignalMessage, env: Env)
    requires Inv(s) && c in s.conns && s.conns[c].isHost && env.clientID.Some? && msg.token != ""
    requires S.GetByToken(s.store, msg.token, env.now).Ok?
    requires S.GetByToken(s.store, msg.token, env.now).value.id != s.conns[c].sessionID
    ensures var s' := HandleJoin(s, c, msg, env).server;
            s.conns[c].sessionID in s'.peers && !HostOf(s', s.conns[c].sessionID) && !Inv(s')
  {
    assert Placed(s, c);
    assert S.GetByToken(s.store, msg.token, env.now).value.id in s.peers;
  }

  predicate HasToken(s: Server, id: string, token: string)
  {
    id in s.store.sessions && s.store.sessions[id].token == token
  }

  /**
   Joining works exactly with the token of a stored session that has not expired, whatever the connection is and
   whether or not the token has been used: the client is registered with that session, and its host is told
   before the client. That the host is missing never happens. A refused join changes nothing, and the error says
   which it was.
   */
  lemma JoinSucceedsExactly(s: Server, c: nat, msg: SignalMessage, env: Env)
    requires Inv(s) && c in s.conns
    ensures var r := HandleJoin(s, c, msg, env);
            var joined := exists id :: HasToken(s, id, msg.token) && env.now <= s.store.sessions[id].expiresAt;
            && (JoinGranted(s, msg, env) <==> msg.token != "" && env.clientID.Some? && joined)
            && (forall id :: JoinGranted(s, msg, env) && HasToken(s, id, msg.token) ==>
                  && Joins(s, id, c, env.clientID.value, r.server)
                  && |r.outs| >= 2
                  && r.outs[0] == Out(s.peers[id].host, Answering(PeerJoined, id, env))
                  && r.outs[1] == Out(c, Answering(SessionCreated, id, env)))
            && (!JoinGranted(s, msg, env) ==>
                  && r.server == s && |r.outs| == 1 && r.outs[0].to == c && r.outs[0].msg.kind == Failure
                  && r.outs[0].msg.payload ==
                     if msg.token == "" then "MISSING_TOKEN"
                     else if forall id :: !HasToken(s, id, msg.token) then "INVALID_TOKEN"
                     else if !joined then "TOKEN_EXPIRED"
                     else "INTERNAL_ERROR")
  {
    hide Members;
    if msg.token in s.store.tokenToSession {
      var id := s.store.tokenToSession[msg.token];
      assert HasToken(s, id, msg.token);
      assert id in s.peers;
    }
  }

  /** The join takes place: the client is on the list of a session that is there, and its connection is a client's. */
  predicate Joins(s: Server, id: string, c: nat, clientID: string, s': Server)
    requires c in s.conns
  {
    && id in s.peers && id in s'.peers && s'.peers[id] == s.peers[id].(clients := s.peers[id].clients[clientID := c])
    && c in s'.conns
    && s'.conns[c] == s.conns[c].(sessionID := id, clientID := clientID, isClient := true)
  }

  function Answering(kind: Kind, id: string, env: Env): SignalMessage
    requires env.clientID.Some?
  {
    SignalMessage(kind, id, env.clientID.value, "", "", env.now / SECOND)
  }

  /**
   Only creating, joining, cleaning up and the end of a host look at the store: expiry does not touch a joined
   client.
   */
  lemma StoreMattersOnlyForJoining(s: Server, store: S.Mem, c: nat, msg: SignalMessage, env: Env)
    requires c in s.conns && s.conns[c].open && !msg.kind.Create? && !msg.kind.Join?
    ensures var r, r' := Step(s, Says(c, msg, env)), Step(s.(store := store), Says(c, msg, env));
            r'.outs == r.outs && r'.server == r.server.(store := store)
  {
  }

  // ---- routing

  predicate Relayed(k: Kind)
  {
    k == Offer || k == Answer || k == Candidate
  }

  /** Queued candidates belong to their session. */
  ghost predicate QueuesOK(s: Server)
  {
    forall id, i :: id in s.peers && 0 <= i < |s.peers[id].queued| ==>
      s.peers[id].queued[i].kind == Candidate && s.peers[id].queued[i].sessionID == id
  }

  lemma {:induction false} RunKeepsQueues(s: Server, run: seq<Action>)
    requires QueuesOK(s)
    ensures QueuesOK(Run(s, run).server)
  {
    hide Step;
    if run != [] {
      RunKeepsQueues(s, run[..|run| - 1]);
      StepKeepsQueues(Run(s, run[..|run| - 1]).server, run[|run| - 1]);
    }
  }

  lemma StepKeepsQueues(s: Server, a: Action)
    requires QueuesOK(s)
    ensures QueuesOK(Step(s, a).server)
  {
  }

  /** A connection of the session the message names: its host, or the client the message is for. */
  ghost predicate Member(s: Server, to: nat, msg: SignalMessage)
  {
    && to in s.conns && s.conns[to].open && s.conns[to].sessionID == msg.sessionID
    && (s.conns[to].isClient ==> s.conns[to].clientID == msg.clientID)
    && (s.conns[to].isHost || s.conns[to].isClient)
  }

  /** Offers, answers and candidates only ever go to a member of the session they name. */
  lemma RelaysReachMembers(run: seq<Action>, a: Action, i: nat)
    requires DisciplinedRun(START, run) && Disciplined(Run(START, run).server, a)
    ensures var r := Step(Run(START, run).server, a);
            i < |r.outs| && Relayed(r.outs[i].msg.kind) ==> Member(r.server, r.outs[i].to, r.outs[i].msg)
  {
    StartInv();
    RunKeepsInv(START, run);
    RunKeepsQueues(START, run);
    hide Run;
    StepRelays(Run(START, run).server, a, i);
  }

  lemma StepRelays(s: Server, a: Action, i: nat)
    requires Inv(s) && QueuesOK(s) && Disciplined(s, a)
    ensures var r := Step(s, a);
            i < |r.outs| && Relayed(r.outs[i].msg.kind) ==> Member(r.server, r.outs[i].to, r.outs[i].msg)
  {
    hide S.Indexed;
    hide Members;
    if a.Says? && a.c in s.conns && s.conns[a.c].open && TimestampOK(a.msg.timestamp, a.env.now) {
      if a.msg.kind.Join? {
        JoinRelays(s, a.c, a.msg, a.env, i);
      } else if Relayed(a.msg.kind) {
        PassedOn(s, a.c, a.msg, a.env, i);
      } else {
        NothingToPassOn(s, a.c, a.msg, a.env, i);
      }
    }
    hide HandleMessage;
    hide Member;
  }

  /** Where a message can be passed on to: a session's host, and the clients in its slots. */
  lemma Addressees(s: Server, id: string, clientID: string)
    requires Members(s)
    ensures id in s.peers ==> HostOf(s, id) && (clientID in s.peers[id].clients ==> ClientOf(s, id, clientID))
  {
  }

  lemma PassedOn(s: Server, c: nat, msg: SignalMessage, env: Env, i: nat)
    requires Inv(s) && c in s.conns && s.conns[c].open && Relayed(msg.kind)
    ensures var r := HandleMessage(s, c, msg, env);
            i < |r.outs| && Relayed(r.outs[i].msg.kind) ==> Member(r.server, r.outs[i].to, r.outs[i].msg)
  {
    Addressees(s, msg.sessionID, msg.clientID);
    hide Inv;
    hide HandleCreate;
    hide HandleJoin;
  }

  lemma NothingToPassOn(s: Server, c: nat, msg: SignalMessage, env: Env, i: nat)
    requires c in s.conns && !Relayed(msg.kind) && !msg.kind.Join?
    ensures var r := HandleMessage(s, c, msg, env); i < |r.outs| ==> !Relayed(r.outs[i].msg.kind)
  {
    hide S.Create;
    hide R.Check;
    hide WithHost;
  }

  lemma JoinRelays(s: Server, c: nat, msg: SignalMessage, env: Env, i: nat)
    requires QueuesOK(s) && c in s.conns && s.conns[c].open && (JoinGranted(s, msg, env) ==> !s.conns[c].isHost)
    ensures var r := HandleJoin(s, c, msg, env);
            i < |r.outs| && Relayed(r.outs[i].msg.kind) ==> Member(r.server, r.outs[i].to, r.outs[i].msg)
  {
    hide S.GetByToken;
    var r := HandleJoin(s, c, msg, env);
    if r.server != s && i >= 2 && i < |r.outs| {
      var id := S.GetByToken(s.store, msg.token, env.now).value.id;
      assert r.outs[i] == Out(c, s.peers[id].queued[i - 2].(clientID := env.clientID.value));
    }
  }

  // ---- a session whose host is gone

  ghost predicate Dead(s: Server, id: string)
  {
    id in s.issued && id !in s.peers && id !in s.store.sessions
  }

  lemma HostEndsSession(s: Server, c: nat)
    requires Inv(s) && c in s.conns && s.conns[c].isHost
    ensures Dead(Step(s, Ends(c)).server, s.conns[c].sessionID)
  {
    hide S.Indexed;
    assert Placed(s, c);
  }

  /** A step on behalf of a dead session can only be refused. */
  ghost predicate OnlyRefused(outs: seq<Out>, id: string)
  {
    forall i :: 0 <= i < |outs| && outs[i].msg.sessionID == id ==> outs[i].msg.kind == Failure
  }

  /** Nobody has come to the session id since. */
  ghost predicate NobodyJoined(s: Server, s': Server, id: string)
  {
    forall c :: c in s'.conns && s'.conns[c].sessionID == id ==> c in s.conns && s.conns[c].sessionID == id
  }

  lemma StaysDead(s: Server, a: Action, id: string)
    requires Inv(s) && QueuesOK(s) && Disciplined(s, a) && Dead(s, id) && id != ""
    ensures Dead(Step(s, a).server, id) && OnlyRefused(Step(s, a).outs, id) && NobodyJoined(s, Step(s, a).server, id)
  {
    hide Inv;
    if a.CleansUp? {
      CleanupAddsNothing(s.store, a.now);
    } else if a.Says? {
      if a.c in s.conns && s.conns[a.c].open && TimestampOK(a.msg.timestamp, a.env.now) {
        match a.msg.kind
        case Create => CreateAvoids(s, a.c, a.env, id);
        case Join => JoinAvoids(s, a.c, a.msg, a.env, id);
        case _ =>
      }
    }
    hide S.Cleanup;
    hide HandleCreate;
    hide HandleJoin;
  }

  lemma CreateAvoids(s: Server, c: nat, env: Env, id: string)
    requires c in s.conns && Dead(s, id) && id != "" && (CreateGranted(s, c, env) ==> env.sessionID !in s.issued)
    ensures Dead(HandleCreate(s, c, env).server, id) && OnlyRefused(HandleCreate(s, c, env).outs, id)
    ensures NobodyJoined(s, HandleCreate(s, c, env).server, id)
  {
    hide R.Check;
  }

  lemma CleanupAddsNothing(m: S.Mem, now: int)
    ensures S.Cleanup(m, now).sessions.Keys <= m.sessions.Keys
  {
  }

  lemma JoinAvoids(s: Server, c: nat, msg: SignalMessage, env: Env, id: string)
    requires QueuesOK(s) && Dead(s, id) && c in s.conns && id != ""
    ensures Dead(HandleJoin(s, c, msg, env).server, id) && OnlyRefused(HandleJoin(s, c, msg, env).outs, id)
    ensures NobodyJoined(s, HandleJoin(s, c, msg, env).server, id)
  {
    hide S.GetByToken;
  }

  /**
   After its host has gone a session never comes back: nobody joins it, nothing is relayed in its name,
   and whoever names it is refused.
   */
  lemma {:induction false} DeadForever(s: Server, run: seq<Action>, id: string)
    requires Inv(s) && QueuesOK(s) && DisciplinedRun(s, run) && Dead(s, id) && id != ""
    ensures Dead(Run(s, run).server, id) && OnlyRefused(Run(s, run).outs, id)
    ensures NobodyJoined(s, Run(s, run).server, id)
  {
    hide Inv;
    hide QueuesOK;
    hide Disciplined;
    hide Step;
    hide Dead;
    if run != [] {
      var n := |run| - 1;
      DeadForever(s, run[..n], id);
      RunKeepsInv(s, run[..n]);
      RunKeepsQueues(s, run[..n]);
      StaysDead(Run(s, run[..n]).server, run[n], id);
    }
  }

  // ---- ICE candidates

  /** The step is a candidate for the session id, said by the host connection of any session and not refused. */
  ghost predicate HostCandidate(s: Server, a: Action, id: string)
  {
    && a.Says? && a.msg.kind.Candidate? && a.msg.sessionID == id && id in s.peers
    && a.c in s.conns && s.conns[a.c].open && s.conns[a.c].isHost && TimestampOK(a.msg.timestamp, a.env.now)
  }

  /** Its addressee is a client that is registered at the time. */
  ghost predicate HasAddressee(s: Server, a: Action, id: string)
    requires HostCandidate(s, a, id)
  {
    a.msg.clientID != "" && a.msg.clientID in s.peers[id].clients
  }

  /** The candidates of host connections for id in a run that had no registered addressee, in order. */
  ghost function Unclaimed(s: Server, run: seq<Action>, id: string): seq<SignalMessage>
  {
    if run == [] then []
    else
      var n := |run| - 1;
      var now, a := Run(s, run[..n]).server, run[n];
      Unclaimed(s, run[..n], id) + (if HostCandidate(now, a, id) && !HasAddressee(now, a, id) then [a.msg] else [])
  }

  /** The candidates of host connections for id in a run that were addressed to clientID while it was registered. */
  ghost function Claimed(s: Server, run: seq<Action>, id: string, clientID: string): seq<SignalMessage>
  {
    if run == [] then []
    else
      var n := |run| - 1;
      var now, a := Run(s, run[..n]).server, run[n];
      Claimed(s, run[..n], id, clientID)
      + (if HostCandidate(now, a, id) && HasAddressee(now, a, id) && a.msg.clientID == clientID then [a.msg] else [])
  }

  /** The candidates among the messages sent to a connection, in order. */
  ghost function CandidatesTo(outs: seq<Out>, to: nat): seq<SignalMessage>
  {
    if outs == [] then []
    else
      var o := outs[|outs| - 1];
      CandidatesTo(outs[..|outs| - 1], to) + (if o.to == to && o.msg.kind == Candidate then [o.msg] else [])
  }

  lemma {:induction false} CandidatesToAppend(a: seq<Out>, b: seq<Out>, to: nat)
    ensures CandidatesTo(a + b, to) == CandidatesTo(a, to) + CandidatesTo(b, to)
  {
    if b == [] {
      assert a + b == a;
    } else {
      InitOfAppend(a, b);
      CandidatesToAppend(a, b[..|b| - 1], to);
    }
  }

  /** A session that is there at the end was there all along, because its ID is not given out twice. */
  lemma StillThere(s: Server, a: Action, id: string)
    requires Inv(s) && Disciplined(s, a) && id in s.issued && id in Step(s, a).server.peers
    ensures id in s.peers
    ensures Step(s, a).server.peers[id].host == s.peers[id].host
    ensures Step(s, a).server.peers[id].queued
            == s.peers[id].queued + (if HostCandidate(s, a, id) && !HasAddressee(s, a, id) then [a.msg] else [])
  {
    hide S.Indexed;
    hide S.GetByToken;
    hide R.Check;
    hide Members;
  }

  lemma IssuedStays(s: Server, a: Action)
    ensures s.issued <= Step(s, a).server.issued
  {
  }

  lemma {:induction false} RunIssued(s: Server, run: seq<Action>)
    ensures s.issued <= Run(s, run).server.issued
  {
    hide Step;
    if run != [] {
      RunIssued(s, run[..|run| - 1]);
      IssuedStays(Run(s, run[..|run| - 1]).server, run[|run| - 1]);
    }
  }

  /** Only creating a session puts it in place, with an empty queue. */
  lemma NewlyThere(s: Server, a: Action, id: string)
    requires Inv(s) && Disciplined(s, a) && id !in s.peers && id in Step(s, a).server.peers
    ensures id !in s.issued && Step(s, a).server.peers[id].queued == []
  {
    hide Members;
    hide S.Indexed;
    hide S.GetByToken;
    hide R.Check;
  }

  lemma {:induction false} NothingYet(s: Server, run: seq<Action>, id: string)
    requires Inv(s) && DisciplinedRun(s, run) && id !in Run(s, run).server.issued
    ensures Unclaimed(s, run, id) == []
  {
    hide Disciplined;
    hide Step;
    hide S.Indexed;
    if run != [] {
      var n := |run| - 1;
      RunKeepsInv(s, run[..n]);
      IssuedStays(Run(s, run[..n]).server, run[n]);
      NothingYet(s, run[..n], id);
    }
  }

  /** A session's queue is append-only, and what is appended is exactly what had no addressee. */
  lemma {:induction false} QueueIsUnclaimed(s: Server, run: seq<Action>, id: string)
    requires Inv(s) && DisciplinedRun(s, run) && id in Run(s, run).server.peers
    requires id in s.peers || id !in s.issued
    ensures Run(s, run).server.peers[id].queued
            == (if id in s.peers then s.peers[id].queued else []) + Unclaimed(s, run, id)
  {
    if run != [] {
      var n := |run| - 1;
      var before := Run(s, run[..n]).server;
      RunKeepsInv(s, run[..n]);
      hide Disciplined;
      hide Step;
      hide S.Indexed;
      if id in before.peers {
        StillThere(before, run[n], id);
        hide HostCandidate;
        QueueIsUnclaimed(s, run[..n], id);
      } else {
        NewlyThere(before, run[n], id);
        RunIssued(s, run[..n]);
        NothingYet(s, run[..n], id);
      }
    }
  }

  /** The host of another session names this one, without an addressee: the handler does not compare the two. */
  ghost predicate Foreign(s: Server, a: Action, id: string)
  {
    HostCandidate(s, a, id) && !HasAddressee(s, a, id) && s.conns[a.c].sessionID != id
  }

  /** A connection flagged as host is the host of exactly the session it created. */
  lemma HostsOwnSession(s: Server, a: Action, id: string)
    requires Inv(s) && HostCandidate(s, a, id)
    ensures a.c == s.peers[id].host <==> s.conns[a.c].sessionID == id
  {
    assert Placed(s, a.c);
    assert HostOf(s, id);
  }

  lemma ForeignIsQueued(s: Server, a: Action, id: string)
    requires Inv(s) && Foreign(s, a, id)
    ensures a.c != s.peers[id].host
    ensures Step(s, a).server.peers[id].queued == s.peers[id].queued + [a.msg]
  {
    HostsOwnSession(s, a, id);
  }

  /** The candidates without an addressee that came from the connection that is the session's host. */
  ghost function OwnUnclaimed(s: Server, run: seq<Action>, id: string): seq<SignalMessage>
  {
    if run == [] then []
    else
      var n := |run| - 1;
      var now, a := Run(s, run[..n]).server, run[n];
      OwnUnclaimed(s, run[..n], id)
      + (if HostCandidate(now, a, id) && !HasAddressee(now, a, id) && a.c == now.peers[id].host then [a.msg] else [])
  }

  ghost predicate Undisturbed(s: Server, run: seq<Action>, id: string)
  {
    run == []
    || (Undisturbed(s, run[..|run| - 1], id) && !Foreign(Run(s, run[..|run| - 1]).server, run[|run| - 1], id))
  }

  lemma {:induction false} OwnAreUnclaimed(s: Server, run: seq<Action>, id: string)
    requires Inv(s) && DisciplinedRun(s, run)
    ensures |OwnUnclaimed(s, run, id)| <= |Unclaimed(s, run, id)|
    ensures Undisturbed(s, run, id) ==> OwnUnclaimed(s, run, id) == Unclaimed(s, run, id)
    ensures !Undisturbed(s, run, id) ==> |OwnUnclaimed(s, run, id)| < |Unclaimed(s, run, id)|
  {
    hide Run;
    hide TimestampOK;
    hide Inv;
    hide Disciplined;
    if run != [] {
      var n := |run| - 1;
      OwnAreUnclaimed(s, run[..n], id);
      RunKeepsInv(s, run[..n]);
      var now := Run(s, run[..n]).server;
      if HostCandidate(now, run[n], id) {
        HostsOwnSession(now, run[n], id);
      }
    }
  }

  /**
   A session's queue is its own host's candidates without an addressee, over any run, exactly if no other host
   has named the session in one.
   */
  lemma QueueIsOwnHosts(run: seq<Action>, id: string)
    requires DisciplinedRun(START, run) && id in Run(START, run).server.peers
    ensures Run(START, run).server.peers[id].queued == OwnUnclaimed(START, run, id) <==> Undisturbed(START, run, id)
  {
    StartInv();
    QueueIsUnclaimed(START, run, id);
    OwnAreUnclaimed(START, run, id);
    hide Run;
    hide Unclaimed;
    hide OwnUnclaimed;
    hide Undisturbed;
    hide DisciplinedRun;
  }

  /** k is the registered client clientID of the session id. */
  ghost predicate Registered(s: Server, id: string, clientID: string, k: nat)
  {
    id in s.peers && clientID in s.peers[id].clients && s.peers[id].clients[clientID] == k
  }

  lemma {:induction false} CandidatesElsewhere(outs: seq<Out>, to: nat)
    requires forall i :: 0 <= i < |outs| ==> outs[i].to != to || outs[i].msg.kind != Candidate
    ensures CandidatesTo(outs, to) == []
  {
    if outs != [] {
      CandidatesElsewhere(outs[..|outs| - 1], to);
    }
  }

  /** What one step sends a registered client by way of candidates is what was addressed to it. */
  lemma StepCandidates(s: Server, a: Action, id: string, clientID: string, k: nat)
    requires Inv(s) && Disciplined(s, a) && Registered(s, id, clientID, k)
    ensures CandidatesTo(Step(s, a).outs, k)
            == if HostCandidate(s, a, id) && HasAddressee(s, a, id) && a.msg.clientID == clientID then [a.msg] else []
  {
    hide S.Indexed;
    hide R.Check;
    assert ClientOf(s, id, clientID);
    if a.Says? && a.msg.kind.Candidate? {
      var other := a.msg.sessionID;
      assert other in s.peers ==> HostOf(s, other);
      assert other in s.peers && a.msg.clientID in s.peers[other].clients ==> ClientOf(s, other, a.msg.clientID);
      assert Step(s, a).outs == [] || |Step(s, a).outs| == 1;
    } else {
      JoinAnswers(s, a, k);
      CandidatesElsewhere(Step(s, a).outs, k);
    }
  }

  lemma JoinAnswers(s: Server, a: Action, k: nat)
    requires k in s.conns && s.conns[k].isClient && Disciplined(s, a) && !(a.Says? && a.msg.kind.Candidate?)
    ensures var outs := Step(s, a).outs;
            forall i :: 0 <= i < |outs| ==> outs[i].to != k || outs[i].msg.kind != Candidate
  {
    hide S.GetByToken;
    hide R.Check;
  }

  lemma StaysRegistered(s: Server, a: Action, id: string, clientID: string, k: nat)
    requires Inv(s) && Disciplined(s, a) && Registered(s, id, clientID, k)
    requires a != Ends(k) && id in Step(s, a).server.peers
    ensures Registered(Step(s, a).server, id, clientID, k)
  {
    assert ClientOf(s, id, clientID);
    if a.Ends? {
      if a.c in s.conns {
        OthersEnd(s, a.c, id, clientID, k);
      }
    } else if a.Says? {
      if a.c in s.conns && s.conns[a.c].open && TimestampOK(a.msg.timestamp, a.env.now) {
        OthersSay(s, a.c, a.msg, a.env, id, clientID, k);
      }
    }
    hide Inv;
    hide HandleMessage;
    hide HandleEnd;
  }

  lemma OthersEnd(s: Server, c: nat, id: string, clientID: string, k: nat)
    requires Members(s) && c in s.conns && c != k && Registered(s, id, clientID, k)
    requires id in HandleEnd(s, c).peers
    ensures Registered(HandleEnd(s, c), id, clientID, k)
  {
    assert Placed(s, c);
    hide Members;
  }

  lemma OthersSay(s: Server, c: nat, msg: SignalMessage, env: Env, id: string, clientID: string, k: nat)
    requires Members(s) && c in s.conns && s.conns[c].open && TimestampOK(msg.timestamp, env.now)
    requires Disciplined(s, Says(c, msg, env)) && Registered(s, id, clientID, k)
    ensures Registered(HandleMessage(s, c, msg, env).server, id, clientID, k)
  {
    assert id in s.issued;
    hide Members;
    hide S.GetByToken;
    hide R.Check;
  }

  /** From its registration on a client is sent exactly the candidates addressed to it, once each and in order. */
  lemma {:induction false} RunCandidates(s: Server, run: seq<Action>, id: string, clientID: string, k: nat)
    requires Inv(s) && DisciplinedRun(s, run) && Registered(s, id, clientID, k)
    requires Ends(k) !in run && id in Run(s, run).server.peers
    ensures Registered(Run(s, run).server, id, clientID, k)
    ensures CandidatesTo(Run(s, run).outs, k) == Claimed(s, run, id, clientID)
  {
    if run != [] {
      var n := |run| - 1;
      var before, a := Run(s, run[..n]).server, run[n];
      RunKeepsInv(s, run[..n]);
      RunIssued(s, run[..n]);
      hide Step;
      hide Disciplined;
      hide S.Indexed;
      StillThere(before, a, id);
      hide HostCandidate;
      RunCandidates(s, run[..n], id, clientID, k);
      StepCandidates(before, a, id, clientID, k);
      StaysRegistered(before, a, id, clientID, k);
      CandidatesToAppend(Run(s, run[..n]).outs, Step(before, a).outs, k);
    }
  }

  /**
   What a joining client is sent of the host's candidates, in any run up to the join, and in any run
   after it in which neither leaves: first its session-created message, then, in order and rewritten to its
   client ID, every candidate so far that had no addressee, then every later one addressed to it.
   */
  lemma JoinerGetsCandidates(run: seq<Action>, c: nat, msg: SignalMessage, env: Env, later: seq<Action>)
    requires var s := Run(START, run).server;
             && DisciplinedRun(START, run) && Disciplined(s, Says(c, msg, env)) && MakesClient(s, Says(c, msg, env))
    requires var s := Step(Run(START, run).server, Says(c, msg, env)).server;
             && DisciplinedRun(s, later) && Ends(c) !in later
             && s.conns[c].sessionID in Run(s, later).server.peers
    ensures var join := Step(Run(START, run).server, Says(c, msg, env));
            var id, clientID := join.server.conns[c].sessionID, join.server.conns[c].clientID;
            && |join.outs| >= 2
            && join.outs[1] == Out(c, SignalMessage(SessionCreated, id, clientID, "", "", env.now / SECOND))
            && CandidatesTo(join.outs[2..], c) == ForClient(Unclaimed(START, run, id), clientID)
            && CandidatesTo(join.outs + Run(join.server, later).outs, c)
               == ForClient(Unclaimed(START, run, id), clientID) + Claimed(join.server, later, id, clientID)
  {
    var s := Run(START, run).server;
    StartInv();
    RunKeepsInv(START, run);
    RunKeepsQueues(START, run);
    hide Step;
    JoinerFrom(s, c, msg, env, later);
    QueueIsUnclaimed(START, run, Step(s, Says(c, msg, env)).server.conns[c].sessionID);
    hide Run;
    hide DisciplinedRun;
    hide Disciplined;
    hide MakesClient;
    hide Unclaimed;
    hide CandidatesTo;
    hide Inv;
  }

  lemma JoinerFrom(s: Server, c: nat, msg: SignalMessage, env: Env, later: seq<Action>)
    requires Inv(s) && QueuesOK(s) && Disciplined(s, Says(c, msg, env)) && MakesClient(s, Says(c, msg, env))
    requires var s1 := Step(s, Says(c, msg, env)).server;
             && DisciplinedRun(s1, later) && Ends(c) !in later
             && c in s1.conns && s1.conns[c].sessionID in Run(s1, later).server.peers
    ensures var join := Step(s, Says(c, msg, env));
            var id, clientID := join.server.conns[c].sessionID, join.server.conns[c].clientID;
            && id in s.peers && |join.outs| >= 2
            && join.outs[1] == Out(c, SignalMessage(SessionCreated, id, clientID, "", "", env.now / SECOND))
            && CandidatesTo(join.outs[2..], c) == ForClient(s.peers[id].queued, clientID)
            && CandidatesTo(join.outs + Run(join.server, later).outs, c)
               == ForClient(s.peers[id].queued, clientID) + Claimed(join.server, later, id, clientID)
  {
    StepKeepsInv(s, Says(c, msg, env));
    JoinSends(s, c, msg, env);
    hide Step;
    hide Run;
    hide QueuesOK;
    hide MakesClient;
    hide Inv;
    hide Disciplined;
    hide DisciplinedRun;
    hide Claimed;
    hide CandidatesTo;
    var join := Step(s, Says(c, msg, env));
    var id, clientID := join.server.conns[c].sessionID, join.server.conns[c].clientID;
    CandidatesToAppend(join.outs, Run(join.server, later).outs, c);
    RunCandidates(join.server, later, id, clientID, c);
  }

  lemma JoinSends(s: Server, c: nat, msg: SignalMessage, env: Env)
    requires Inv(s) && QueuesOK(s) && MakesClient(s, Says(c, msg, env))
    ensures var join := Step(s, Says(c, msg, env));
            var id, clientID := join.server.conns[c].sessionID, join.server.conns[c].clientID;
            && id in s.peers && Registered(join.server, id, clientID, c)
            && |join.outs| >= 2
            && join.outs[1] == Out(c, SignalMessage(SessionCreated, id, clientID, "", "", env.now / SECOND))
            && CandidatesTo(join.outs[2..], c) == ForClient(s.peers[id].queued, clientID)
            && CandidatesTo(join.outs, c) == ForClient(s.peers[id].queued, clientID)
  {
    hide S.GetByToken;
    hide S.Indexed;
    hide Members;
    var join := Step(s, Says(c, msg, env));
    var id, clientID := join.server.conns[c].sessionID, join.server.conns[c].clientID;
    var flushed := ForClient(s.peers[id].queued, clientID);
    assert join.outs[2..] == SentTo(c, flushed);
    assert join.outs == join.outs[..2] + SentTo(c, flushed);
    CandidatesToAppend(join.outs[..2], SentTo(c, flushed), c);
    CandidatesElsewhere(join.outs[..2], c);
    AllCandidates(c, flushed);
  }

  lemma {:induction false} AllCandidates(c: nat, ms: seq<SignalMessage>)
    requires forall i :: 0 <= i < |ms| ==> ms[i].kind == Candidate
    ensures CandidatesTo(SentTo(c, ms), c) == ms
  {
    if ms != [] {
      var n := |ms| - 1;
      AllCandidates(c, ms[..n]);
      assert SentTo(c, ms)[..n] == SentTo(c, ms[..n]);
    }
  }
}
