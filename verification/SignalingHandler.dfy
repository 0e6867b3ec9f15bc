/**
 The handler object of the signaling server (signaling-server/handlers/websocket.go), working on its own
 maps, against the steps of module Signaling. `conns` holds the variables of every HandleWebSocket call that is
 running, and `sent` is what has been written to the sockets. The time lists of the rate limiter are values
 here; RateLimiter.RateLimitEntry works on one in place.
 */
module SignalingHandler {
  import S = SessionStore
  import R = RateLimiter
  import opened Bytes
  import opened Signaling

  class Handler {
    const store: S.MemoryStore
    var sessionPeers: map<string, PeerPair>
    var rateLimiter: map<Address, seq<int>>
    var conns: map<nat, Conn>
    var sent: seq<Out>
    ghost var issued: set<string>

    ghost function State(): Server
      reads this, store
    {
      Server(store.State(), sessionPeers, rateLimiter, conns, issued)
    }

    constructor ()
      ensures fresh(store) && State() == START && sent == []
    {
      store := new S.MemoryStore();
      sessionPeers, rateLimiter, conns, sent, issued := map[], map[], map[], [], {};
    }

    method SendMessage(to: nat, msg: SignalMessage)
      modifies this`sent
      ensures sent == old(sent) + [Out(to, msg)]
    {
      sent := sent + [Out(to, msg)];
    }

    method SendError(to: nat, sessionID: string, code: string, now: int)
      modifies this`sent
      ensures sent == old(sent) + [Error(to, sessionID, code, now)]
    {
      sent := sent + [Error(to, sessionID, code, now)];
    }

    method CheckRateLimit(remote: Address, now: int) returns (ok: bool)
      modifies this`rateLimiter
      ensures var r := R.Check(Stamps(old(State()), remote), now);
              ok == r.ok && rateLimiter == old(rateLimiter)[remote := r.timestamps]
    {
      var r := R.Check(if remote in rateLimiter then rateLimiter[remote] else [], now);
      rateLimiter := rateLimiter[remote := r.timestamps];
      return r.ok;
    }

    /** A new session and its host; the caller puts the result into the connection's variables. */
    method HandleCreate(c: nat, env: Env) returns (sessionID: string, ok: bool)
      requires c in conns
      modifies this`sessionPeers, this`rateLimiter, this`sent, this`issued, store
      ensures var r := Signaling.HandleCreate(old(State()), c, env);
              && State() == r.server.(conns := old(conns)) && sent == old(sent) + r.outs
              && r.server.conns == (if ok then conns[c := conns[c].(sessionID := sessionID, isHost := true)] else conns)
    {
      hide R.Check;
      sessionID, ok := "", false;
      var allowed := CheckRateLimit(conns[c].remote, env.now);
      if !allowed {
        SendError(c, "", "RATE_LIMIT", env.now);
        return;
      }
      if env.payload.None? {
        SendError(c, "", "PARSE_ERROR", env.now);
        return;
      }
      var (mode, target) := env.payload.value;
      if env.token.None? {
        SendError(c, "", "INTERNAL_ERROR", env.now);
        return;
      }
      var token := env.token.value;
      var session := store.CreateSession(env.sessionID, token, mode, target, env.now, SESSION_TTL);
      issued := issued + {env.sessionID};
      sessionPeers := sessionPeers[session.id := PeerPair(c, map[], [])];
      SendMessage(c, SignalMessage(SessionCreated, session.id, "", "", token, env.now / SECOND));
      return session.id, true;
    }

    method HandleJoin(c: nat, msg: SignalMessage, env: Env) returns (sessionID: string, clientID: string, ok: bool)
      requires c in conns
      modifies this`sessionPeers, this`sent
      ensures var r := Signaling.HandleJoin(old(State()), c, msg, env);
              && State() == r.server.(conns := old(conns)) && sent == old(sent) + r.outs
              && r.server.conns == if ok then
                                     conns[c := conns[c].(sessionID := sessionID, clientID := clientID,
                                                          isClient := true)]
                                   else conns
    {
      hide S.GetByToken;
      sessionID, clientID, ok := "", "", false;
      if msg.token == "" {
        SendError(c, "", "MISSING_TOKEN", env.now);
        return;
      }
      var found := store.GetSessionByToken(msg.token, env.now);
      if found.Err? {
        SendError(c, "", if found.error == S.NotFound then "INVALID_TOKEN" else "TOKEN_EXPIRED", env.now);
        return;
      }
      var id := found.value.id;
      if env.clientID.None? {
        SendError(c, id, "INTERNAL_ERROR", env.now);
        return;
      }
      var cid := env.clientID.value;
      if id !in sessionPeers {
        SendError(c, id, "NO_HOST", env.now);
        return;
      }
      var peers := sessionPeers[id];
      sessionPeers := sessionPeers[id := peers.(clients := peers.clients[cid := c])];
      SendMessage(peers.host, SignalMessage(PeerJoined, id, cid, "", "", env.now / SECOND));
      SendMessage(c, SignalMessage(SessionCreated, id, cid, "", "", env.now / SECOND));
      Flush(c, peers.queued, cid);
      return id, cid, true;
    }

    /** Sends a client what is queued, under its own ID. */
    method Flush(c: nat, queued: seq<SignalMessage>, clientID: string)
      modifies this`sent
      ensures sent == old(sent) + SentTo(c, ForClient(queued, clientID))
    {
      for i := 0 to |queued|
        invariant sent == old(sent) + SentTo(c, ForClient(queued, clientID))[..i]
      {
        SendMessage(c, queued[i].(clientID := clientID));
      }
    }

    method HandleRelay(c: nat, msg: SignalMessage, env: Env, toClient: bool)
      requires c in conns
      modifies this`sent
      ensures var r := Signaling.HandleRelay(old(State()), c, msg, env, toClient);
              State() == r.server && sent == old(sent) + r.outs
    {
      if msg.sessionID !in sessionPeers {
        SendError(c, msg.sessionID, "SESSION_NOT_FOUND", env.now);
        return;
      }
      var peers := sessionPeers[msg.sessionID];
      if !toClient {
        SendMessage(peers.host, msg.(clientID := conns[c].clientID));
      } else if msg.clientID !in peers.clients {
        SendError(c, msg.sessionID, "PEER_NOT_CONNECTED", env.now);
      } else {
        SendMessage(peers.clients[msg.clientID], msg);
      }
    }

    method HandleICECandidate(c: nat, msg: SignalMessage, env: Env)
      requires c in conns
      modifies this`sent, this`sessionPeers
      ensures var r := Signaling.HandleICECandidate(old(State()), c, msg, env);
              State() == r.server && sent == old(sent) + r.outs
    {
      if msg.sessionID !in sessionPeers {
        SendError(c, msg.sessionID, "SESSION_NOT_FOUND", env.now);
        return;
      }
      var peers := sessionPeers[msg.sessionID];
      var target: Option<nat> := None;
      var out := msg;
      if conns[c].isHost {
        if msg.clientID != "" && msg.clientID in peers.clients {
          target := Some(peers.clients[msg.clientID]);
        }
      } else {
        target := Some(peers.host);
        out := msg.(clientID := conns[c].clientID);
      }
      if target.None? {
        sessionPeers := sessionPeers[msg.sessionID := peers.(queued := peers.queued + [msg])];
        return;
      }
      SendMessage(target.value, out);
    }

    method Connect(c: nat, remote: Address)
      requires c !in conns
      modifies this`conns
      ensures Stepped(State(), []) == Step(old(State()), Connects(c, remote))
    {
      conns := conns[c := Conn(remote, "", "", false, false, true)];
    }

    /** One turn of the read loop; None is what does not parse. */
    method Read(c: nat, parsed: Option<SignalMessage>, env: Env)
      requires c in conns && conns[c].open
      modifies this, store
      ensures var r := Step(old(State()), if parsed.Some? then Says(c, parsed.value, env) else Garbles(c, env.now));
              State() == r.server && sent == old(sent) + r.outs
    {
      hide Signaling.HandleCreate;
      hide Signaling.HandleJoin;
      hide Signaling.HandleRelay;
      hide Signaling.HandleICECandidate;
      if parsed.None? {
        SendError(c, "", "PARSE_ERROR", env.now);
        return;
      }
      var msg := parsed.value;
      if !TimestampOK(msg.timestamp, env.now) {
        SendError(c, msg.sessionID, "TIMESTAMP_ERROR", env.now);
        return;
      }
      match msg.kind
      case Create =>
        var sessionID, ok := HandleCreate(c, env);
        if ok {
          conns := conns[c := conns[c].(sessionID := sessionID, isHost := true)];
        }
      case Join =>
        var sessionID, clientID, ok := HandleJoin(c, msg, env);
        if ok {
          conns := conns[c := conns[c].(sessionID := sessionID, clientID := clientID,
                                                          isClient := true)];
        }
      case Offer => HandleRelay(c, msg, env, true);
      case Answer => HandleRelay(c, msg, env, false);
      case Candidate => HandleICECandidate(c, msg, env);
      case _ => SendError(c, msg.sessionID, "UNKNOWN_TYPE", env.now);
    }

    /** The deferred cleanup; a host's clients are closed in any order. */
    method Close(c: nat)
      requires c in conns
      modifies this`conns, this`sessionPeers, store
      ensures Stepped(State(), []) == Step(old(State()), Ends(c))
    {
      hide S.Delete;
      var conn := conns[c];
      conns := conns - {c};
      if conn.sessionID != "" {
        if conn.isHost {
          if conn.sessionID in sessionPeers {
            CloseAll(sessionPeers[conn.sessionID].clients);
          }
          sessionPeers := sessionPeers - {conn.sessionID};
          var _ := store.DeleteSession(conn.sessionID);
        } else if conn.isClient && conn.clientID != "" && conn.sessionID in sessionPeers {
          var peers := sessionPeers[conn.sessionID];
          sessionPeers := sessionPeers[conn.sessionID := peers.(clients := peers.clients - {conn.clientID})];
        }
      }
    }

    method CloseAll(clients: map<string, nat>)
      modifies this`conns
      ensures conns == map k | k in old(conns) ::
                         if k in clients.Values then old(conns[k]).(open := false) else old(conns[k])
    {
      var todo := clients.Keys;
      while todo != {}
        invariant todo <= clients.Keys && conns.Keys == old(conns.Keys)
        invariant forall k :: k in conns ==>
          conns[k] == old(conns[k]) || (k in clients.Values && conns[k] == old(conns[k]).(open := false))
        invariant forall cid :: cid in clients && cid !in todo && clients[cid] in conns ==> !conns[clients[cid]].open
        decreases |todo|
      {
        var cid :| cid in todo;
        todo := todo - {cid};
        var k := clients[cid];
        if k in conns {
          conns := conns[k := conns[k].(open := false)];
        }
      }
      forall k | k in conns && k in clients.Values
        ensures conns[k] == old(conns[k]).(open := false)
      {
        var cid :| cid in clients && clients[cid] == k;
      }
    }
  }
}
