/**
 What the signaling server refuses and with which error, what the end of a connection leaves behind, and what the
 cleanup removes, told from who is connected to which session.
 */
module SignalingReplies {
  import S = SessionStore
  import R = RateLimiter
  import Runs = SignalingRuns
  import opened Bytes
  import opened Signaling

  /** The connection h is the open host of the session id. */
  predicate Hosts(s: Server, h: nat, id: string)
  {
    h in s.conns && s.conns[h].isHost && s.conns[h].open && s.conns[h].sessionID == id
  }

  /** The connection k is the open client clientID of the session id. */
  predicate Serves(s: Server, k: nat, id: string, clientID: string)
  {
    && k in s.conns && s.conns[k].isClient && s.conns[k].open
    && s.conns[k].sessionID == id && s.conns[k].clientID == clientID
  }

  ghost predicate HasHost(s: Server, id: string)
  {
    id != "" && exists h :: Hosts(s, h, id)
  }

  ghost predicate HasClient(s: Server, id: string, clientID: string)
  {
    exists k :: Serves(s, k, id, clientID)
  }

  /**
   The one error with which a message is refused, if it is: for the session it names, or none, and with this code.
   Joins are told of by SignalingRuns.JoinSucceedsExactly.
   */
  ghost function Refusal(s: Server, c: nat, msg: SignalMessage, env: Env): Option<(string, string)>
    requires c in s.conns
  {
    if !TimestampOK(msg.timestamp, env.now) then Some((msg.sessionID, "TIMESTAMP_ERROR"))
    else
      match msg.kind
      case Create =>
        if !R.Check(Stamps(s, s.conns[c].remote), env.now).ok then Some(("", "RATE_LIMIT"))
        else if env.payload.None? then Some(("", "PARSE_ERROR"))
        else if env.token.None? then Some(("", "INTERNAL_ERROR"))
        else None
      case Offer =>
        if !HasHost(s, msg.sessionID) then Some((msg.sessionID, "SESSION_NOT_FOUND"))
        else if !HasClient(s, msg.sessionID, msg.clientID) then Some((msg.sessionID, "PEER_NOT_CONNECTED"))
        else None
      case Answer => if !HasHost(s, msg.sessionID) then Some((msg.sessionID, "SESSION_NOT_FOUND")) else None
      case Candidate => if !HasHost(s, msg.sessionID) then Some((msg.sessionID, "SESSION_NOT_FOUND")) else None
      case _ => Some((msg.sessionID, "UNKNOWN_TYPE"))
  }

  lemma HostIsThere(s: Server, id: string)
    requires Inv(s)
    ensures id in s.peers <==> HasHost(s, id)
  {
    if id in s.peers {
      assert HostOf(s, id);
      assert Hosts(s, s.peers[id].host, id);
    }
    if HasHost(s, id) {
      var h :| Hosts(s, h, id);
      assert Placed(s, h);
    }
  }

  lemma ClientIsThere(s: Server, id: string, clientID: string)
    requires Inv(s) && id in s.peers
    ensures clientID in s.peers[id].clients <==> HasClient(s, id, clientID)
  {
    if clientID in s.peers[id].clients {
      assert ClientOf(s, id, clientID);
      assert Serves(s, s.peers[id].clients[clientID], id, clientID);
    }
    if HasClient(s, id, clientID) {
      var k :| Serves(s, k, id, clientID);
      assert Placed(s, k);
    }
  }

  function ErrorTo(c: nat, sessionID: string, code: string, now: int): Out
  {
    Out(c, SignalMessage(Failure, sessionID, "", "", code, now / 1_000_000_000))
  }

  /**
   In every reachable state a message other than a join is answered with one error, which goes to its sender and says
   which it was, exactly if it is refused; refusing changes nothing but the limiter's list.
   */
  lemma RefusedExactly(s: Server, c: nat, msg: SignalMessage, env: Env)
    requires Inv(s) && c in s.conns && s.conns[c].open && !msg.kind.Join?
    ensures var r := Step(s, Says(c, msg, env));
            match Refusal(s, c, msg, env)
            case Some(e) =>
              && r.outs == [ErrorTo(c, e.0, e.1, env.now)]
              && r.server == s.(limiter := r.server.limiter)
              && (msg.kind != Create ==> r.server.limiter == s.limiter)
            case None =>
              forall i :: 0 <= i < |r.outs| ==> r.outs[i].msg.kind != Failure
  {
    HostIsThere(s, msg.sessionID);
    if msg.sessionID in s.peers {
      ClientIsThere(s, msg.sessionID, msg.clientID);
    }
    if msg.kind.Create? && TimestampOK(msg.timestamp, env.now) {
      CreateRefused(s, c, msg, env);
    }
    hide Inv;
    hide HandleCreate;
    hide R.Check;
    hide HasHost;
    hide HasClient;
    hide TimestampOK;
  }

  /** What cannot be parsed is answered with one error, too, and changes nothing. */
  lemma GarbledIsAnswered(s: Server, c: nat, now: int)
    requires c in s.conns && s.conns[c].open
    ensures Step(s, Garbles(c, now)) == Stepped(s, [ErrorTo(c, "", "PARSE_ERROR", now)])
  {
  }

  lemma CreateRefused(s: Server, c: nat, msg: SignalMessage, env: Env)
    requires c in s.conns && msg.kind.Create? && TimestampOK(msg.timestamp, env.now)
    ensures var r := HandleCreate(s, c, env);
            match Refusal(s, c, msg, env)
            case Some(e) =>
              r.outs == [ErrorTo(c, e.0, e.1, env.now)] && r.server == s.(limiter := r.server.limiter)
            case None =>
              forall i :: 0 <= i < |r.outs| ==> r.outs[i].msg.kind != Failure
  {
    hide R.Check;
    hide TimestampOK;
  }

  /** A session that was created is found by its token, with what its host asked for, until five minutes are over. */
  lemma CreatedIsFound(s: Server, c: nat, env: Env, later: int)
    requires c in s.conns && CreateGranted(s, c, env) && later <= env.now + 300 * 1_000_000_000
    ensures var id, token := env.sessionID, env.token.value;
            S.GetByToken(HandleCreate(s, c, env).server.store, token, later)
            == S.Ok(S.Session(id, token, env.now, env.now + 300 * 1_000_000_000, false,
                              env.payload.value.0, env.payload.value.1))
  {
    hide R.Check;
  }

  /**
   Whoever names a session whose host is gone gets one error, SESSION_NOT_FOUND, at any time afterwards, and nothing
   else happens.
   */
  lemma DeadIsRefused(s: Server, run: seq<Action>, id: string, c: nat, msg: SignalMessage, env: Env)
    requires Inv(s) && Runs.QueuesOK(s) && DisciplinedRun(s, run) && Runs.Dead(s, id) && id != ""
    requires var now := Run(s, run).server; c in now.conns && now.conns[c].open
    requires msg.sessionID == id && (msg.kind.Offer? || msg.kind.Answer? || msg.kind.Candidate?)
    requires TimestampOK(msg.timestamp, env.now)
    ensures var now := Run(s, run).server;
            Step(now, Says(c, msg, env)) == Stepped(now, [ErrorTo(c, id, "SESSION_NOT_FOUND", env.now)])
  {
    Runs.DeadForever(s, run, id);
    hide Run;
    hide Inv;
    hide Runs.QueuesOK;
    hide DisciplinedRun;
    hide TimestampOK;
  }

  // ---- the end of a connection

  /** An open client of the session, whose socket goes with the host. */
  predicate GoesWith(s: Server, k: nat, id: string)
  {
    k in s.conns && s.conns[k].isClient && s.conns[k].open && s.conns[k].sessionID == id
  }

  /**
   The end of a host: its connection and its session are gone, and the sockets of the session's open clients are
   closed. Every other session and connection is as before.
   */
  ghost predicate HostGone(s: Server, s': Server, c: nat)
    requires c in s.conns
  {
    var id := s.conns[c].sessionID;
    && s'.conns.Keys == s.conns.Keys - {c}
    && (forall k :: k in s'.conns ==>
          s'.conns[k] == if GoesWith(s, k, id) then s.conns[k].(open := false) else s.conns[k])
    && s'.peers == s.peers - {id} && s'.store.sessions == s.store.sessions - {id}
    && s'.limiter == s.limiter && s'.issued == s.issued
  }

  /** The clients' slots are as they were, but for those that held c. */
  ghost predicate FreedOf(before: map<string, nat>, after: map<string, nat>, c: nat)
  {
    forall k :: (k in after <==> k in before && before[k] != c) && (k in after ==> after[k] == before[k])
  }

  /** The end of any other connection: it is gone, and so is its slot. Everything else is as before. */
  ghost predicate ClientGone(s: Server, s': Server, c: nat)
  {
    && s'.conns == s.conns - {c} && s'.store == s.store && s'.limiter == s.limiter && s'.issued == s.issued
    && s'.peers.Keys == s.peers.Keys
    && forall id :: id in s'.peers ==>
         && s'.peers[id].host == s.peers[id].host && s'.peers[id].queued == s.peers[id].queued
         && FreedOf(s.peers[id].clients, s'.peers[id].clients, c)
  }

  ghost predicate InNoSession(s: Server, c: nat)
  {
    && c !in s.conns
    && forall id :: id in s.peers ==> s.peers[id].host != c && c !in s.peers[id].clients.Values
  }

  /** In every reachable state, what the end of a connection leaves. */
  lemma EndsExactly(s: Server, c: nat)
    requires Inv(s) && c in s.conns
    ensures var r := Step(s, Ends(c));
            && r.outs == [] && InNoSession(r.server, c)
            && (if s.conns[c].isHost then HostGone(s, r.server, c) else ClientGone(s, r.server, c))
  {
    if s.conns[c].isHost {
      HostEnds(s, c);
    } else {
      OtherEnds(s, c);
    }
    GoneFromAll(s, c);
    hide Inv;
    hide HandleEnd;
  }

  lemma HostEnds(s: Server, c: nat)
    requires Members(s) && c in s.conns && s.conns[c].isHost
    ensures HostGone(s, HandleEnd(s, c), c)
  {
    assert Placed(s, c);
    var id, s' := s.conns[c].sessionID, HandleEnd(s, c);
    forall k | k in s'.conns
      ensures s'.conns[k] == if GoesWith(s, k, id) then s.conns[k].(open := false) else s.conns[k]
    {
      assert Placed(s, k);
      if k in s.peers[id].clients.Values {
        var slot :| slot in s.peers[id].clients && s.peers[id].clients[slot] == k;
        assert ClientOf(s, id, slot);
      }
    }
    assert s'.store.sessions == s.store.sessions - {id};
  }

  lemma OtherEnds(s: Server, c: nat)
    requires Members(s) && c in s.conns && !s.conns[c].isHost
    ensures ClientGone(s, HandleEnd(s, c), c)
  {
    assert Placed(s, c);
    var s' := HandleEnd(s, c);
    forall id | id in s'.peers
      ensures FreedOf(s.peers[id].clients, s'.peers[id].clients, c)
    {
      forall slot | slot in s.peers[id].clients
        ensures s.peers[id].clients[slot] == c <==>
                  id == s.conns[c].sessionID && slot == s.conns[c].clientID && s.conns[c].open
      {
        assert ClientOf(s, id, slot);
      }
    }
  }

  lemma GoneFromAll(s: Server, c: nat)
    requires Inv(s) && c in s.conns
    ensures InNoSession(Step(s, Ends(c)).server, c)
  {
    StepKeepsInv(s, Ends(c));
    var s' := Step(s, Ends(c)).server;
    assert c !in s'.conns;
    forall id | id in s'.peers
      ensures s'.peers[id].host != c && c !in s'.peers[id].clients.Values
    {
      assert HostOf(s', id);
      forall slot | slot in s'.peers[id].clients
        ensures s'.peers[id].clients[slot] != c
      {
        assert ClientOf(s', id, slot);
      }
    }
    hide S.Indexed;
    hide Step;
  }

  /** An offer to a client that has left is answered to its sender, and goes nowhere. */
  lemma LeftIsNotConnected(s: Server, c: nat, h: nat, offer: SignalMessage, env: Env)
    requires Inv(s) && c in s.conns && s.conns[c].isClient && s.conns[c].open
    requires h != c && h in s.conns && s.conns[h].open && TimestampOK(offer.timestamp, env.now)
    requires offer.kind.Offer? && offer.sessionID == s.conns[c].sessionID && offer.clientID == s.conns[c].clientID
    ensures var s' := Step(s, Ends(c)).server;
            Step(s', Says(h, offer, env))
            == Stepped(s', [ErrorTo(h, offer.sessionID, "PEER_NOT_CONNECTED", env.now)])
  {
    assert Placed(s, c);
    EndsExactly(s, c);
    hide HandleEnd;
    hide S.Indexed;
    hide TimestampOK;
  }

  // ---- cleaning up

  /** The cleanup removes exactly the stored sessions whose deadline has passed, with their tokens, and nothing else. */
  lemma SweepsExactly(s: Server, now: int, id: string, token: string)
    requires Inv(s)
    ensures var r := Step(s, CleansUp(now));
            && r.outs == [] && r.server == s.(store := r.server.store)
            && (id in r.server.store.sessions <==> id in s.store.sessions && now <= s.store.sessions[id].expiresAt)
            && (id in r.server.store.sessions ==> r.server.store.sessions[id] == s.store.sessions[id])
            && (token in r.server.store.tokenToSession <==>
                  exists i :: Runs.HasToken(s, i, token) && now <= s.store.sessions[i].expiresAt)
  {
    S.CleanupIsExact(s.store, now, token, id);
    if token in s.store.tokenToSession {
      assert Runs.HasToken(s, s.store.tokenToSession[token], token);
    }
    hide Members;
  }
}
