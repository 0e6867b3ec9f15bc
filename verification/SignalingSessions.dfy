/**
 From creating a session to joining it, over any run in between, and which connection a relayed message
 reaches.
 */
module SignalingSessions {
  import S = SessionStore
  import R = RateLimiter
  import opened Signaling
  import Runs = SignalingRuns

  /** The store has the session id with this token and deadline, and h is its host. */
  ghost predicate Stored(s: Server, id: string, token: string, expiresAt: int, h: nat)
  {
    && id in s.store.sessions && s.store.sessions[id].id == id
    && s.store.sessions[id].token == token && s.store.sessions[id].expiresAt == expiresAt
    && id in s.peers && s.peers[id].host == h
  }

  /** Nothing but the end of its host and a cleanup after its deadline takes a session away. */
  lemma StaysStored(s: Server, a: Action, id: string, token: string, expiresAt: int, h: nat)
    requires Inv(s) && Disciplined(s, a) && Stored(s, id, token, expiresAt, h)
    requires a != Ends(h) && (a.CleansUp? ==> a.now <= expiresAt)
    ensures Stored(Step(s, a).server, id, token, expiresAt, h)
  {
    if a.Ends? {
      if a.c in s.conns {
        EndLeavesStored(s, a.c, id, token, expiresAt, h);
      }
    } else if a.Says? {
      if a.c in s.conns && s.conns[a.c].open && TimestampOK(a.msg.timestamp, a.env.now) {
        MessageLeavesStored(s, a.c, a.msg, a.env, id, token, expiresAt, h);
      }
    }
    hide Inv;
    hide HandleMessage;
    hide HandleEnd;
  }

  lemma EndLeavesStored(s: Server, c: nat, id: string, token: string, expiresAt: int, h: nat)
    requires Inv(s) && c in s.conns && c != h && Stored(s, id, token, expiresAt, h)
    ensures Stored(HandleEnd(s, c), id, token, expiresAt, h)
  {
    hide S.Indexed;
    assert Placed(s, c);
    hide Members;
  }

  lemma MessageLeavesStored(s: Server, c: nat, msg: SignalMessage, env: Env, id: string, token: string, expiresAt: int,
                            h: nat)
    requires Inv(s) && c in s.conns && s.conns[c].open && TimestampOK(msg.timestamp, env.now)
    requires Stored(s, id, token, expiresAt, h)
    requires MakesHost(s, Says(c, msg, env)) ==> env.sessionID !in s.issued
    ensures Stored(HandleMessage(s, c, msg, env).server, id, token, expiresAt, h)
  {
    hide S.Indexed;
    assert id in s.issued;
    hide Members;
    match msg.kind
    case Create => CreateLeavesStored(s, c, env, id, token, expiresAt, h);
    case Join => JoinLeavesStored(s, c, msg, env, id, token, expiresAt, h);
    case _ =>
    hide HandleCreate;
    hide HandleJoin;
    hide HandleRelay;
  }

  lemma CreateLeavesStored(s: Server, c: nat, env: Env, id: string, token: string, expiresAt: int, h: nat)
    requires c in s.conns && Stored(s, id, token, expiresAt, h)
    requires CreateGranted(s, c, env) ==> env.sessionID != id
    ensures Stored(HandleCreate(s, c, env).server, id, token, expiresAt, h)
  {
    hide R.Check;
  }

  lemma JoinLeavesStored(s: Server, c: nat, msg: SignalMessage, env: Env, id: string, token: string,
                         expiresAt: int, h: nat)
    requires c in s.conns && Stored(s, id, token, expiresAt, h)
    ensures Stored(HandleJoin(s, c, msg, env).server, id, token, expiresAt, h)
  {
    hide S.GetByToken;
  }

  lemma {:induction false} RunStaysStored(s: Server, run: seq<Action>, id: string, token: string,
                                          expiresAt: int, h: nat)
    requires Inv(s) && DisciplinedRun(s, run) && Stored(s, id, token, expiresAt, h)
    requires Ends(h) !in run && forall i :: 0 <= i < |run| && run[i].CleansUp? ==> run[i].now <= expiresAt
    ensures Stored(Run(s, run).server, id, token, expiresAt, h)
  {
    hide Inv;
    hide Step;
    hide Disciplined;
    hide Stored;
    if run != [] {
      var n := |run| - 1;
      Runs.RunKeepsInv(s, run[..n]);
      RunStaysStored(s, run[..n], id, token, expiresAt, h);
      StaysStored(Run(s, run[..n]).server, run[n], id, token, expiresAt, h);
    }
  }

  lemma CreateStores(s: Server, c: nat, env: Env)
    requires c in s.conns && CreateGranted(s, c, env)
    ensures var r := HandleCreate(s, c, env);
            && Stored(r.server, env.sessionID, env.token.value, env.now + SESSION_TTL, c)
            && r.outs
               == [Out(c, SignalMessage(SessionCreated, env.sessionID, "", "", env.token.value, env.now / SECOND))]
  {
    hide R.Check;
    hide Members;
    hide S.Indexed;
  }

  /**
   A session that was created can be joined with its token, whatever happens in between, as long as its host
   stays and its five minutes are not over: the joining connection becomes a client of that very session and
   the host that created it is told.
   */
  lemma CreatedCanBeJoined(s: Server, c: nat, create: SignalMessage, env: Env, run: seq<Action>,
                           k: nat, join: SignalMessage, joinEnv: Env)
    requires Inv(s) && Disciplined(s, Says(c, create, env))
    requires MakesHost(s, Says(c, create, env)) && env.token.value != ""
    requires var s1 := Step(s, Says(c, create, env)).server;
             && DisciplinedRun(s1, run) && Ends(c) !in run
             && (forall i :: 0 <= i < |run| && run[i].CleansUp? ==> run[i].now <= env.now + SESSION_TTL)
    requires var s2 := Run(Step(s, Says(c, create, env)).server, run).server;
             && k in s2.conns && s2.conns[k].open && join.kind.Join? && join.token == env.token.value
             && TimestampOK(join.timestamp, joinEnv.now) && joinEnv.now <= env.now + SESSION_TTL
             && joinEnv.clientID.Some?
    ensures var s2 := Run(Step(s, Says(c, create, env)).server, run).server;
            var r := Step(s2, Says(k, join, joinEnv));
            && r.server.conns[k]
               == s2.conns[k].(sessionID := env.sessionID, clientID := joinEnv.clientID.value, isClient := true)
            && |r.outs| >= 2
            && r.outs[0] == Out(c, SignalMessage(PeerJoined, env.sessionID, joinEnv.clientID.value, "", "",
                                                 joinEnv.now / SECOND))
  {
    var created := Step(s, Says(c, create, env));
    CreateStores(s, c, env);
    StepKeepsInv(s, Says(c, create, env));
    hide HandleCreate;
    RunStaysStored(created.server, run, env.sessionID, env.token.value, env.now + SESSION_TTL, c);
    Runs.RunKeepsInv(created.server, run);
    hide Run;
    JoinFinds(Run(created.server, run).server, k, join, joinEnv, env.sessionID, env.now + SESSION_TTL, c);
    hide Inv;
    hide HandleJoin;
  }

  lemma JoinFinds(s: Server, k: nat, join: SignalMessage, env: Env, id: string, expiresAt: int, h: nat)
    requires Inv(s) && Stored(s, id, join.token, expiresAt, h) && join.token != "" && k in s.conns
    requires env.now <= expiresAt && env.clientID.Some?
    ensures var r := HandleJoin(s, k, join, env);
            && r.server.conns[k] == s.conns[k].(sessionID := id, clientID := env.clientID.value, isClient := true)
            && |r.outs| >= 2
            && r.outs[0] == Out(h, SignalMessage(PeerJoined, id, env.clientID.value, "", "", env.now / SECOND))
  {
    hide Members;
    assert join.token in s.store.tokenToSession && s.store.tokenToSession[join.token] == id;
    hide S.Indexed;
  }

  // ---- whom a message reaches

  /**
   An offer, and a host's candidate, is passed on unchanged to connection k exactly if k is an open client connection
   of the session it names with the client ID it names.
   */
  lemma ReachesClient(run: seq<Action>, c: nat, msg: SignalMessage, env: Env, k: nat)
    requires var s := Run(START, run).server;
             && DisciplinedRun(START, run) && c in s.conns && s.conns[c].open && TimestampOK(msg.timestamp, env.now)
             && (msg.kind.Offer? || (msg.kind.Candidate? && s.conns[c].isHost))
    ensures var s := Run(START, run).server;
            Step(s, Says(c, msg, env)).outs == [Out(k, msg)]
            <==> k in s.conns && s.conns[k].open && s.conns[k].isClient
                 && s.conns[k].sessionID == msg.sessionID && s.conns[k].clientID == msg.clientID
  {
    var s := Run(START, run).server;
    Runs.StartInv();
    Runs.RunKeepsInv(START, run);
    hide Run;
    hide S.Indexed;
    assert k in s.conns ==> Placed(s, k);
    Runs.Addressees(s, msg.sessionID, msg.clientID);
    hide Members;
  }

  /**
   An answer, and a client's candidate, is passed on under the sender's client ID to connection k exactly if k is
   the open host connection of the session it names.
   */
  lemma ReachesHost(run: seq<Action>, c: nat, msg: SignalMessage, env: Env, k: nat)
    requires var s := Run(START, run).server;
             && DisciplinedRun(START, run) && c in s.conns && s.conns[c].open && TimestampOK(msg.timestamp, env.now)
             && (msg.kind.Answer? || (msg.kind.Candidate? && !s.conns[c].isHost))
    ensures var s := Run(START, run).server;
            Step(s, Says(c, msg, env)).outs == [Out(k, msg.(clientID := s.conns[c].clientID))]
            <==> k in s.conns && s.conns[k].open && s.conns[k].isHost && s.conns[k].sessionID == msg.sessionID
  {
    var s := Run(START, run).server;
    Runs.StartInv();
    Runs.RunKeepsInv(START, run);
    hide Run;
    hide S.Indexed;
    assert k in s.conns ==> Placed(s, k);
    Runs.Addressees(s, msg.sessionID, "");
    hide Members;
  }
}
