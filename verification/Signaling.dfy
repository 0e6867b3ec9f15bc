/**
 The signaling server (signaling-server/handlers/websocket.go): what one handled message, a new
 connection or the end of one does to the sessions, and what the server sends. Times are in nanoseconds.
 */
module Signaling {
  import opened Bytes
  import S = SessionStore
  import R = RateLimiter

  datatype Kind = Create | Join | Offer | Answer | Candidate | SessionCreated | PeerJoined | Failure | Other

  /** Timestamps are in seconds; the payload of a relayed message is not looked at. */
  datatype SignalMessage = SignalMessage(kind: Kind, sessionID: string, clientID: string, token: string,
                                         payload: string, timestamp: int)

  const SESSION_TTL := 300_000_000_000
  const TIMESTAMP_TOLERANCE := 30_000_000_000
  const SECOND := 1_000_000_000

  /** A host connection, its client connections by client ID, and the host's candidates for clients to come. */
  datatype PeerPair = PeerPair(host: nat, clients: map<string, nat>, queued: seq<SignalMessage>)

  /** A remote address: the limiter's key is all of it, the port too. */
  datatype Address = Address(host: string, port: nat)

  /** The variables of one HandleWebSocket call; `open` is false once the server has closed the socket. */
  datatype Conn = Conn(remote: Address, sessionID: string, clientID: string, isHost: bool, isClient: bool, open: bool)

  /** `issued` is history: the session IDs given out so far. */
  datatype Server = Server(
    store: S.Mem, peers: map<string, PeerPair>, limiter: map<Address, seq<int>>, conns: map<nat, Conn>,
    issued: set<string>)

  /**
   The clock, the generators and the parser while a message is handled: the mode and target of a create
   payload, a new token, a new session ID and a new client ID. None is a failure.
   */
  datatype Env = Env(now: int, payload: Option<(string, string)>, token: Option<string>, sessionID: string,
                     clientID: Option<string>)

  datatype Out = Out(to: nat, msg: SignalMessage)

  datatype Stepped = Stepped(server: Server, outs: seq<Out>)

  function Error(to: nat, sessionID: string, code: string, now: int): Out
  {
    Out(to, SignalMessage(Failure, sessionID, "", "", code, now / SECOND))
  }

  const MIN_DURATION := -0x8000_0000_0000_0000
  const MAX_DURATION := 0x7FFF_FFFF_FFFF_FFFF
  /** The seconds from the year 1 to 1970. */
  const UNIX_TO_INTERNAL := 62_135_596_800

  /** The seconds of a Go time, which are counted from the year 1 in 64 bits, as seconds from 1970. */
  function UnixSeconds(ts: int): int
  {
    if ts + UNIX_TO_INTERNAL > 0x7FFF_FFFF_FFFF_FFFF then ts - 0x1_0000_0000_0000_0000 else ts
  }

  /** The time passed since a timestamp: a 64-bit number of nanoseconds, which saturates. */
  function Since(ts: int, now: int): int
  {
    var d := now - UnixSeconds(ts) * SECOND;
    if d < MIN_DURATION then MIN_DURATION else if d > MAX_DURATION then MAX_DURATION else d
  }

  /** The absolute value is taken in 64 bits too: the least duration is its own negative. */
  predicate TimestampOK(ts: int, now: int)
  {
    var d := Since(ts, now);
    (if d < 0 && d != MIN_DURATION then -d else d) <= TIMESTAMP_TOLERANCE
  }

  /**
   The replay check lets through what was stamped within 30 seconds of the server's clock, and also what was
   stamped 2^63 nanoseconds ahead of it or more, as long as the seconds do not wrap.
   */
  lemma TimestampPasses(ts: int, now: int)
    requires -0x8000_0000_0000_0000 <= ts < 0x8000_0000_0000_0000 && MIN_DURATION <= now <= MAX_DURATION
    ensures TimestampOK(ts, now) <==>
            || now - 30_000_000_000 <= ts * SECOND <= now + 30_000_000_000
            || (ts * SECOND >= now + 0x8000_0000_0000_0000 && ts < 0x8000_0000_0000_0000 - UNIX_TO_INTERNAL)
  {
  }

  function Stamps(s: Server, remote: Address): seq<int>
  {
    if remote in s.limiter then s.limiter[remote] else []
  }

  function HandleCreate(s: Server, c: nat, env: Env): Stepped
    requires c in s.conns
  {
    var conn := s.conns[c];
    var r := R.Check(Stamps(s, conn.remote), env.now);
    var s1 := s.(limiter := s.limiter[conn.remote := r.timestamps]);
    if !r.ok then Stepped(s1, [Error(c, "", "RATE_LIMIT", env.now)])
    else if env.payload.None? then Stepped(s1, [Error(c, "", "PARSE_ERROR", env.now)])
    else if env.token.None? then Stepped(s1, [Error(c, "", "INTERNAL_ERROR", env.now)])
    else
      var id, token := env.sessionID, env.token.value;
      var store := S.Create(s.store, id, token, env.payload.value.0, env.payload.value.1, env.now, SESSION_TTL);
      Stepped(WithHost(s1.(store := store), c, id),
              [Out(c, SignalMessage(SessionCreated, id, "", "", token, env.now / SECOND))])
  }

  /** c has become the host of the session id. */
  function WithHost(s: Server, c: nat, id: string): Server
    requires c in s.conns
  {
    s.(peers := s.peers[id := PeerPair(c, map[], [])],
       conns := s.conns[c := s.conns[c].(sessionID := id, isHost := true)],
       issued := s.issued + {id})
  }

  /** c has become the client clientID of the session id. */
  function WithClient(s: Server, c: nat, id: string, clientID: string): Server
    requires c in s.conns && id in s.peers
  {
    var pair := s.peers[id];
    s.(peers := s.peers[id := pair.(clients := pair.clients[clientID := c])],
       conns := s.conns[c := s.conns[c].(sessionID := id, clientID := clientID, isClient := true)])
  }

  /** A queued candidate as a joining client gets it. */
  function ForClient(q: seq<SignalMessage>, clientID: string): seq<SignalMessage>
  {
    seq(|q|, i requires 0 <= i < |q| => q[i].(clientID := clientID))
  }

  function SentTo(to: nat, ms: seq<SignalMessage>): seq<Out>
  {
    seq(|ms|, i requires 0 <= i < |ms| => Out(to, ms[i]))
  }

  function HandleJoin(s: Server, c: nat, msg: SignalMessage, env: Env): Stepped
    requires c in s.conns
  {
    if msg.token == "" then Stepped(s, [Error(c, "", "MISSING_TOKEN", env.now)])
    else
      match S.GetByToken(s.store, msg.token, env.now)
      case Err(NotFound) => Stepped(s, [Error(c, "", "INVALID_TOKEN", env.now)])
      case Err(Expired) => Stepped(s, [Error(c, "", "TOKEN_EXPIRED", env.now)])
      case Ok(session) =>
        if env.clientID.None? then Stepped(s, [Error(c, session.id, "INTERNAL_ERROR", env.now)])
        else if session.id !in s.peers then Stepped(s, [Error(c, session.id, "NO_HOST", env.now)])
        else
          var id, clientID, pair := session.id, env.clientID.value, s.peers[session.id];
          Stepped(
            WithClient(s, c, id, clientID),
            [Out(pair.host, SignalMessage(PeerJoined, id, clientID, "", "", env.now / SECOND)),
             Out(c, SignalMessage(SessionCreated, id, clientID, "", "", env.now / SECOND))]
            + SentTo(c, ForClient(pair.queued, clientID)))
  }

  function HandleRelay(s: Server, c: nat, msg: SignalMessage, env: Env, toClient: bool): Stepped
    requires c in s.conns
  {
    if msg.sessionID !in s.peers then Stepped(s, [Error(c, msg.sessionID, "SESSION_NOT_FOUND", env.now)])
    else
      var pair := s.peers[msg.sessionID];
      if !toClient then Stepped(s, [Out(pair.host, msg.(clientID := s.conns[c].clientID))])
      else if msg.clientID in pair.clients then Stepped(s, [Out(pair.clients[msg.clientID], msg)])
      else Stepped(s, [Error(c, msg.sessionID, "PEER_NOT_CONNECTED", env.now)])
  }

  function HandleICECandidate(s: Server, c: nat, msg: SignalMessage, env: Env): Stepped
    requires c in s.conns
  {
    if msg.sessionID !in s.peers then Stepped(s, [Error(c, msg.sessionID, "SESSION_NOT_FOUND", env.now)])
    else
      var pair := s.peers[msg.sessionID];
      if !s.conns[c].isHost then Stepped(s, [Out(pair.host, msg.(clientID := s.conns[c].clientID))])
      else if msg.clientID != "" && msg.clientID in pair.clients then
        Stepped(s, [Out(pair.clients[msg.clientID], msg)])
      else
        Stepped(s.(peers := s.peers[msg.sessionID := pair.(queued := pair.queued + [msg])]), [])
  }

  function HandleMessage(s: Server, c: nat, msg: SignalMessage, env: Env): Stepped
    requires c in s.conns
  {
    if !TimestampOK(msg.timestamp, env.now) then
      Stepped(s, [Error(c, msg.sessionID, "TIMESTAMP_ERROR", env.now)])
    else
      match msg.kind
      case Create => HandleCreate(s, c, env)
      case Join => HandleJoin(s, c, msg, env)
      case Offer => HandleRelay(s, c, msg, env, true)
      case Answer => HandleRelay(s, c, msg, env, false)
      case Candidate => HandleICECandidate(s, c, msg, env)
      case _ => Stepped(s, [Error(c, msg.sessionID, "UNKNOWN_TYPE", env.now)])
  }

  /** The host c of the session id is gone, and its clients' sockets are closed. */
  function WithoutSession(s: Server, c: nat, id: string): Server
  {
    var closed := if id in s.peers then s.peers[id].clients.Values else {};
    s.(conns := map k | k in s.conns && k != c :: if k in closed then s.conns[k].(open := false) else s.conns[k],
       peers := s.peers - {id})
  }

  /** The deferred cleanup when the connection c ends. */
  function HandleEnd(s: Server, c: nat): Server
    requires c in s.conns
  {
    var conn := s.conns[c];
    var id := conn.sessionID;
    if id != "" && conn.isHost then
      WithoutSession(s, c, id).(store := S.Delete(s.store, id))
    else if id != "" && conn.isClient && conn.clientID != "" && id in s.peers then
      var pair := s.peers[id];
      s.(conns := s.conns - {c}, peers := s.peers[id := pair.(clients := pair.clients - {conn.clientID})])
    else
      s.(conns := s.conns - {c})
  }

  datatype Action =
    | Connects(c: nat, remote: Address)
    | Says(c: nat, msg: SignalMessage, env: Env)
    | Garbles(c: nat, now: int)
    | Ends(c: nat)
    | CleansUp(now: int)

  /** What is impossible in the state changes nothing; a closed socket brings no more messages. */
  function Step(s: Server, a: Action): Stepped
  {
    match a
    case Connects(c, remote) =>
      if c in s.conns then Stepped(s, [])
      else Stepped(s.(conns := s.conns[c := Conn(remote, "", "", false, false, true)]), [])
    case Says(c, msg, env) =>
      if c in s.conns && s.conns[c].open then HandleMessage(s, c, msg, env) else Stepped(s, [])
    case Garbles(c, now) =>
      if c in s.conns && s.conns[c].open then Stepped(s, [Error(c, "", "PARSE_ERROR", now)]) else Stepped(s, [])
    case Ends(c) => if c in s.conns then Stepped(HandleEnd(s, c), []) else Stepped(s, [])
    case CleansUp(now) => Stepped(s.(store := S.Cleanup(s.store, now)), [])
  }

  function Run(s: Server, actions: seq<Action>): Stepped
  {
    if actions == [] then Stepped(s, [])
    else
      var before := Run(s, actions[..|actions| - 1]);
      var last := Step(before.server, actions[|actions| - 1]);
      Stepped(last.server, before.outs + last.outs)
  }

  const START := Server(S.NOTHING, map[], map[], map[], {})

  // ---- what is assumed of the generators and the clients

  /** The create gets past the limiter, the parser of its payload and the generator of the token. */
  predicate CreateGranted(s: Server, c: nat, env: Env)
    requires c in s.conns
  {
    R.Check(Stamps(s, s.conns[c].remote), env.now).ok && env.payload.Some? && env.token.Some?
  }

  /** The join's token leads to an unexpired session whose host is there. */
  predicate JoinGranted(s: Server, msg: SignalMessage, env: Env)
  {
    && msg.token != "" && S.GetByToken(s.store, msg.token, env.now).Ok? && env.clientID.Some?
    && S.GetByToken(s.store, msg.token, env.now).value.id in s.peers
  }

  /** The step makes its connection a host, or a client. */
  predicate MakesHost(s: Server, a: Action)
  {
    a.Says? && a.msg.kind.Create? && a.c in s.conns && s.conns[a.c].open && TimestampOK(a.msg.timestamp, a.env.now)
    && CreateGranted(s, a.c, a.env)
  }

  predicate MakesClient(s: Server, a: Action)
  {
    a.Says? && a.msg.kind.Join? && a.c in s.conns && s.conns[a.c].open && TimestampOK(a.msg.timestamp, a.env.now)
    && JoinGranted(s, a.msg, a.env)
  }

  /** A session ID never given out before, and a token not in use. */
  ghost predicate FreshSession(s: Server, env: Env)
  {
    && env.sessionID != "" && env.sessionID !in s.issued
    && (env.token.Some? ==> env.token.value !in s.store.tokenToSession)
  }

  /** A client ID not in use. */
  ghost predicate FreshClient(s: Server, env: Env)
  {
    env.clientID.Some? ==>
      env.clientID.value != "" && forall id :: id in s.peers ==> env.clientID.value !in s.peers[id].clients
  }

  predicate HasRole(s: Server, c: nat)
    requires c in s.conns
  {
    s.conns[c].isHost || s.conns[c].isClient
  }

  /** Fresh session IDs, tokens and client IDs where one is given out, and no second role for a connection. */
  ghost predicate Disciplined(s: Server, a: Action)
  {
    && (MakesHost(s, a) ==> FreshSession(s, a.env) && !HasRole(s, a.c))
    && (MakesClient(s, a) ==> FreshClient(s, a.env) && !HasRole(s, a.c))
  }

  ghost predicate DisciplinedRun(s: Server, run: seq<Action>)
  {
    run == [] ||
    (DisciplinedRun(s, run[..|run| - 1]) && Disciplined(Run(s, run[..|run| - 1]).server, run[|run| - 1]))
  }

  // ---- membership

  /** The host of a session is a live connection that created it. */
  ghost predicate HostOf(s: Server, id: string)
    requires id in s.peers
  {
    var h := s.peers[id].host;
    h in s.conns && s.conns[h].isHost && !s.conns[h].isClient && s.conns[h].sessionID == id && s.conns[h].open
  }

  /** The slot of a client holds a live connection with that session and client ID. */
  ghost predicate ClientOf(s: Server, id: string, clientID: string)
    requires id in s.peers && clientID in s.peers[id].clients
  {
    var k := s.peers[id].clients[clientID];
    && k in s.conns && s.conns[k].isClient && !s.conns[k].isHost && s.conns[k].sessionID == id
    && s.conns[k].clientID == clientID && clientID != "" && s.conns[k].open
  }

  /** Every connection with a role holds the matching place; a client the server closed has lost its session. */
  ghost predicate Placed(s: Server, c: nat)
    requires c in s.conns
  {
    var conn := s.conns[c];
    && !(conn.isHost && conn.isClient)
    && (conn.isHost || conn.isClient <==> conn.sessionID != "")
    && (conn.isHost ==> conn.sessionID in s.peers && s.peers[conn.sessionID].host == c)
    && (conn.isClient && conn.open ==>
          && conn.sessionID in s.peers && conn.clientID in s.peers[conn.sessionID].clients
          && s.peers[conn.sessionID].clients[conn.clientID] == c)
    && (conn.isClient && !conn.open ==> conn.sessionID !in s.peers)
  }

  ghost predicate Members(s: Server)
  {
    && (forall id :: id in s.peers ==> id != "" && id in s.issued && HostOf(s, id))
    && (forall id, k :: id in s.peers && k in s.peers[id].clients ==> ClientOf(s, id, k))
    && (forall c :: c in s.conns ==> Placed(s, c))
    && (forall c :: c in s.conns && s.conns[c].sessionID != "" ==> s.conns[c].sessionID in s.issued)
  }

  ghost predicate Inv(s: Server)
  {
    S.Indexed(s.store) && s.store.sessions.Keys <= s.peers.Keys && Members(s)
  }

  lemma HostJoins(s: Server, c: nat, id: string)
    requires Members(s) && c in s.conns && s.conns[c].open && !s.conns[c].isHost && !s.conns[c].isClient
    requires id != "" && id !in s.issued
    ensures Members(WithHost(s, c, id))
  {
    var s' := WithHost(s, c, id);
    assert Placed(s, c);
    forall i | i in s'.peers
      ensures i != "" && i in s'.issued && HostOf(s', i)
    {
      assert i != id ==> HostOf(s, i);
    }
    forall i, k | i in s'.peers && k in s'.peers[i].clients
      ensures ClientOf(s', i, k)
    {
      assert ClientOf(s, i, k);
    }
    forall k | k in s'.conns
      ensures Placed(s', k)
    {
      assert Placed(s, k);
    }
  }

  lemma ClientJoins(s: Server, c: nat, id: string, clientID: string)
    requires Members(s) && c in s.conns && s.conns[c].open && !s.conns[c].isHost && !s.conns[c].isClient
    requires id in s.peers && clientID != "" && clientID !in s.peers[id].clients
    ensures Members(WithClient(s, c, id, clientID))
  {
    var s' := WithClient(s, c, id, clientID);
    assert Placed(s, c);
    forall i | i in s'.peers
      ensures i != "" && i in s'.issued && HostOf(s', i)
    {
      assert HostOf(s, i);
    }
    forall i, k | i in s'.peers && k in s'.peers[i].clients
      ensures ClientOf(s', i, k)
    {
      assert i != id || k != clientID ==> ClientOf(s, i, k);
    }
    forall k | k in s'.conns
      ensures Placed(s', k)
    {
      assert Placed(s, k);
    }
  }

  lemma HostLeaves(s: Server, c: nat)
    requires Members(s) && c in s.conns && s.conns[c].isHost
    ensures Members(WithoutSession(s, c, s.conns[c].sessionID))
  {
    var id := s.conns[c].sessionID;
    var s' := WithoutSession(s, c, id);
    assert Placed(s, c);
    var closed := s.peers[id].clients.Values;
    forall k | k in closed
      ensures k in s.conns && s.conns[k].isClient && s.conns[k].sessionID == id && s.conns[k].open
    {
      var cid :| cid in s.peers[id].clients && s.peers[id].clients[cid] == k;
      assert ClientOf(s, id, cid);
    }
    forall i | i in s'.peers
      ensures i != "" && i in s'.issued && HostOf(s', i)
    {
      assert HostOf(s, i);
    }
    forall i, k | i in s'.peers && k in s'.peers[i].clients
      ensures ClientOf(s', i, k)
    {
      assert ClientOf(s, i, k);
    }
    forall k | k in s'.conns
      ensures Placed(s', k)
    {
      assert Placed(s, k);
      if s.conns[k].isClient && s.conns[k].sessionID == id && s.conns[k].open {
        assert s.peers[id].clients[s.conns[k].clientID] == k;
        assert k in closed;
      }
    }
  }

  lemma ClientLeaves(s: Server, c: nat)
    requires Members(s) && c in s.conns && !s.conns[c].isHost
    ensures Members(HandleEnd(s, c))
  {
    var s' := HandleEnd(s, c);
    assert Placed(s, c);
    var id := s.conns[c].sessionID;
    forall i | i in s'.peers
      ensures i != "" && i in s'.issued && HostOf(s', i)
    {
      assert HostOf(s, i);
    }
    forall i, k | i in s'.peers && k in s'.peers[i].clients
      ensures ClientOf(s', i, k)
    {
      assert ClientOf(s, i, k);
    }
    forall k | k in s'.conns
      ensures Placed(s', k)
    {
      assert Placed(s, k);
    }
  }

  lemma QueueKeepsMembers(s: Server, id: string, queued: seq<SignalMessage>)
    requires Members(s) && id in s.peers
    ensures Members(s.(peers := s.peers[id := s.peers[id].(queued := queued)]))
  {
    var s' := s.(peers := s.peers[id := s.peers[id].(queued := queued)]);
    forall i | i in s'.peers
      ensures i != "" && i in s'.issued && HostOf(s', i)
    {
      assert HostOf(s, i);
    }
    forall i, k | i in s'.peers && k in s'.peers[i].clients
      ensures ClientOf(s', i, k)
    {
      assert ClientOf(s, i, k);
    }
    forall k | k in s'.conns
      ensures Placed(s', k)
    {
      assert Placed(s, k);
    }
  }

  lemma OpenKeepsMembers(s: Server, c: nat, remote: Address)
    requires Members(s) && c !in s.conns
    ensures Members(s.(conns := s.conns[c := Conn(remote, "", "", false, false, true)]))
  {
    var s' := s.(conns := s.conns[c := Conn(remote, "", "", false, false, true)]);
    forall i | i in s'.peers
      ensures i != "" && i in s'.issued && HostOf(s', i)
    {
      assert HostOf(s, i);
    }
    forall i, k | i in s'.peers && k in s'.peers[i].clients
      ensures ClientOf(s', i, k)
    {
      assert ClientOf(s, i, k);
    }
    forall k | k in s'.conns
      ensures Placed(s', k)
    {
      assert k != c ==> Placed(s, k);
    }
  }

  /** Members looks neither at the store nor at the limiter. */
  lemma MembersApart(s: Server, s': Server)
    requires Members(s) && s' == s.(store := s'.store, limiter := s'.limiter)
    ensures Members(s')
  {
    forall i | i in s'.peers
      ensures i != "" && i in s'.issued && HostOf(s', i)
    {
      assert HostOf(s, i);
    }
    forall i, k | i in s'.peers && k in s'.peers[i].clients
      ensures ClientOf(s', i, k)
    {
      assert ClientOf(s, i, k);
    }
    forall k | k in s'.conns
      ensures Placed(s', k)
    {
      assert Placed(s, k);
    }
  }

  lemma CreateKeepsInv(s: Server, c: nat, env: Env)
    requires Inv(s) && c in s.conns && s.conns[c].open
    requires CreateGranted(s, c, env) ==> FreshSession(s, env) && !HasRole(s, c)
    ensures Inv(HandleCreate(s, c, env).server)
  {
    hide S.Indexed;
    hide R.Check;
    hide Members;
    var s' := HandleCreate(s, c, env).server;
    var s1 := s.(limiter := s'.limiter);
    MembersApart(s, s1);
    if CreateGranted(s, c, env) {
      var id := env.sessionID;
      NotIssued(s, id);
      S.CreateKeepsIndex(s.store, id, env.token.value, env.payload.value.0, env.payload.value.1, env.now, SESSION_TTL);
      MembersApart(s, s1.(store := s'.store));
      HostJoins(s1.(store := s'.store), c, id);
    }
  }

  lemma NotIssued(s: Server, id: string)
    requires Inv(s) && id !in s.issued
    ensures id !in s.peers && id !in s.store.sessions
  {
  }

  lemma JoinKeepsInv(s: Server, c: nat, msg: SignalMessage, env: Env)
    requires Inv(s) && c in s.conns && s.conns[c].open
    requires JoinGranted(s, msg, env) ==> FreshClient(s, env) && !HasRole(s, c)
    ensures Inv(HandleJoin(s, c, msg, env).server)
  {
    hide S.Indexed;
    hide S.GetByToken;
    hide Members;
    if JoinGranted(s, msg, env) {
      ClientJoins(s, c, S.GetByToken(s.store, msg.token, env.now).value.id, env.clientID.value);
    }
  }

  lemma EndKeepsInv(s: Server, c: nat)
    requires Inv(s) && c in s.conns
    ensures Inv(HandleEnd(s, c))
  {
    hide S.Indexed;
    hide Members;
    if s.conns[c].isHost {
      HostHasSession(s, c);
      var id := s.conns[c].sessionID;
      HostLeaves(s, c);
      S.DeleteKeepsIndex(s.store, id);
      MembersApart(WithoutSession(s, c, id), HandleEnd(s, c));
    } else {
      ClientLeaves(s, c);
    }
  }

  lemma HostHasSession(s: Server, c: nat)
    requires Members(s) && c in s.conns && s.conns[c].isHost
    ensures s.conns[c].sessionID != ""
  {
    assert Placed(s, c);
  }

  lemma StepKeepsInv(s: Server, a: Action)
    requires Inv(s) && Disciplined(s, a)
    ensures Inv(Step(s, a).server)
  {
    hide S.Indexed;
    hide Members;
    hide HandleCreate;
    hide HandleJoin;
    hide HandleEnd;
    match a
    case Connects(c, remote) =>
      if c !in s.conns {
        OpenKeepsMembers(s, c, remote);
      }
    case Says(c, msg, env) =>
      if c in s.conns && s.conns[c].open && TimestampOK(msg.timestamp, env.now) {
        match msg.kind
        case Create => CreateKeepsInv(s, c, env);
        case Join => JoinKeepsInv(s, c, msg, env);
        case Candidate =>
          if msg.sessionID in s.peers {
            QueueKeepsMembers(s, msg.sessionID, s.peers[msg.sessionID].queued + [msg]);
          }
        case _ =>
      }
    case Garbles(_, _) =>
    case Ends(c) =>
      if c in s.conns {
        EndKeepsInv(s, c);
      }
    case CleansUp(now) =>
      S.CleanupKeepsIndex(s.store, now);
      MembersApart(s, Step(s, a).server);
  }
}
