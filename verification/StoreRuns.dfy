/**
 Runs of store operations: the memory store keeps its token index, and the Redis store, a map from keys
 to values with deadlines under the same clock, gives the same answers.
 */
module StoreRuns {
  import opened Bytes
  import opened SessionStore

  // ---- Redis

  datatype Key<+T> = Key(value: T, deadline: int)

  /** The keys btunnel:session:<id> and btunnel:token:<token>. */
  datatype Redis = Redis(sessions: map<string, Key<Session>>, tokens: map<string, Key<string>>)

  /** GET finds a key only before its deadline. */
  predicate Live<T>(keys: map<string, Key<T>>, k: string, now: int)
  {
    k in keys && now < keys[k].deadline
  }

  function RedisCreate(r: Redis, id: string, token: string, mode: string, target: string, now: int, ttl: int): Redis
  {
    Redis(r.sessions[id := Key(NewSession(id, token, mode, target, now, ttl), now + ttl)],
          r.tokens[token := Key(id, now + ttl)])
  }

  function RedisGet(r: Redis, id: string, now: int): Result<Session>
  {
    if !Live(r.sessions, id, now) then Err(NotFound)
    else if now > r.sessions[id].value.expiresAt then Err(Expired)
    else Ok(r.sessions[id].value)
  }

  function RedisGetByToken(r: Redis, token: string, now: int): Result<Session>
  {
    if !Live(r.tokens, token, now) then Err(NotFound) else RedisGet(r, r.tokens[token].value, now)
  }

  /** UpdateSession sets the key without looking whether it exists. */
  function RedisUpdate(r: Redis, s: Session, now: int): Redis
  {
    if s.expiresAt - now <= 0 then r else r.(sessions := r.sessions[s.id := Key(s, now + (s.expiresAt - now))])
  }

  function RedisDelete(r: Redis, id: string, now: int): Redis
  {
    match RedisGet(r, id, now)
    case Ok(s) => Redis(r.sessions - {id}, r.tokens - {s.token})
    case Err(_) => r
  }

  function RedisMarkUsed(r: Redis, token: string, now: int): Redis
  {
    match RedisGetByToken(r, token, now)
    case Ok(s) => RedisUpdate(r, s.(used := true), now)
    case Err(_) => r
  }

  // ---- runs

  datatype Op =
    | Creates(id: string, token: string, mode: string, target: string, ttl: int)
    | Looks
    | Updates(session: Session)
    | Deletes(id: string)
    | Marks(token: string)
    | CleansUp

  datatype Call = Call(op: Op, now: int)

  function MemStep(m: Mem, c: Call): Mem
  {
    match c.op
    case Creates(id, token, mode, target, ttl) => Create(m, id, token, mode, target, c.now, ttl)
    case Looks => m
    case Updates(s) => Update(m, s)
    case Deletes(id) => Delete(m, id)
    case Marks(token) => MarkUsed(m, token)
    case CleansUp => Cleanup(m, c.now)
  }

  /** Redis needs no cleaning up. */
  function RedisStep(r: Redis, c: Call): Redis
  {
    match c.op
    case Creates(id, token, mode, target, ttl) => RedisCreate(r, id, token, mode, target, c.now, ttl)
    case Looks => r
    case Updates(s) => RedisUpdate(r, s, c.now)
    case Deletes(id) => RedisDelete(r, id, c.now)
    case Marks(token) => RedisMarkUsed(r, token, c.now)
    case CleansUp => r
  }

  function MemRun(calls: seq<Call>): Mem
  {
    if calls == [] then NOTHING else MemStep(MemRun(calls[..|calls| - 1]), calls[|calls| - 1])
  }

  function RedisRun(calls: seq<Call>): Redis
  {
    if calls == [] then Redis(map[], map[]) else RedisStep(RedisRun(calls[..|calls| - 1]), calls[|calls| - 1])
  }

  /** The generated ID and token belong to no session the store still holds, and an update leaves the token alone. */
  ghost predicate FreshCall(m: Mem, c: Call)
  {
    && (c.op.Creates? ==> c.op.id !in m.sessions && c.op.token !in m.tokenToSession && c.op.ttl > 0)
    && (c.op.Updates? ==>
          var s := c.op.session; s.id in m.sessions ==> m.sessions[s.id].token == s.token)
  }

  /** Creations are fresh, updates keep tokens, and the clock does not go back. */
  ghost predicate Orderly(calls: seq<Call>)
  {
    calls == [] ||
    var n := |calls| - 1;
    Orderly(calls[..n]) && FreshCall(MemRun(calls[..n]), calls[n]) && (n > 0 ==> calls[n - 1].now <= calls[n].now)
  }

  /** An update keeps the deadline of a session that is live, and is too late for one that is not. */
  ghost predicate TimelyCall(m: Mem, c: Call)
  {
    c.op.Updates? ==>
      var s := c.op.session;
      if LiveSession(m, s.id, c.now) then s.expiresAt == m.sessions[s.id].expiresAt else s.expiresAt <= c.now
  }

  ghost predicate Timely(calls: seq<Call>)
  {
    calls == [] || (Timely(calls[..|calls| - 1]) && TimelyCall(MemRun(calls[..|calls| - 1]), calls[|calls| - 1]))
  }

  // ---- the two stores hold the same live sessions

  predicate LiveSession(m: Mem, id: string, now: int)
  {
    id in m.sessions && now < m.sessions[id].expiresAt
  }

  ghost predicate Alike(m: Mem, r: Redis, now: int)
  {
    && (forall id :: LiveSession(m, id, now) <==> Live(r.sessions, id, now))
    && (forall id :: LiveSession(m, id, now) ==> r.sessions[id] == Key(m.sessions[id], m.sessions[id].expiresAt))
    && (forall t :: (t in m.tokenToSession && LiveSession(m, m.tokenToSession[t], now)) <==> Live(r.tokens, t, now))
    && (forall t :: Live(r.tokens, t, now) ==>
          r.tokens[t] == Key(m.tokenToSession[t], m.sessions[m.tokenToSession[t]].expiresAt))
  }

  lemma AlikeLater(m: Mem, r: Redis, now: int, later: int)
    requires Alike(m, r, now) && now <= later
    ensures Alike(m, r, later)
  {
    forall id
      ensures LiveSession(m, id, later) <==> Live(r.sessions, id, later)
    {
      assert LiveSession(m, id, now) <==> Live(r.sessions, id, now);
    }
    forall t
      ensures (t in m.tokenToSession && LiveSession(m, m.tokenToSession[t], later)) <==> Live(r.tokens, t, later)
    {
      assert (t in m.tokenToSession && LiveSession(m, m.tokenToSession[t], now)) <==> Live(r.tokens, t, now);
    }
  }

  lemma CreateAlike(m: Mem, r: Redis, c: Call)
    requires Indexed(m) && Alike(m, r, c.now) && c.op.Creates? && FreshCall(m, c)
    ensures Alike(MemStep(m, c), RedisStep(r, c), c.now)
  {
    var m', r' := MemStep(m, c), RedisStep(r, c);
    forall t
      ensures (t in m'.tokenToSession && LiveSession(m', m'.tokenToSession[t], c.now)) <==> Live(r'.tokens, t, c.now)
      ensures Live(r'.tokens, t, c.now) ==>
                r'.tokens[t] == Key(m'.tokenToSession[t], m'.sessions[m'.tokenToSession[t]].expiresAt)
    {
      assert Live(r.tokens, t, c.now) <==> t in m.tokenToSession && LiveSession(m, m.tokenToSession[t], c.now);
    }
  }

  lemma DeleteAlike(m: Mem, r: Redis, c: Call)
    requires Indexed(m) && Alike(m, r, c.now) && c.op.Deletes?
    ensures Alike(MemStep(m, c), RedisStep(r, c), c.now)
  {
    var id, m', r' := c.op.id, MemStep(m, c), RedisStep(r, c);
    assert LiveSession(m, id, c.now) <==> Live(r.sessions, id, c.now);
    forall i
      ensures LiveSession(m', i, c.now) <==> Live(r'.sessions, i, c.now)
    {
      assert LiveSession(m, i, c.now) <==> Live(r.sessions, i, c.now);
    }
    forall t
      ensures (t in m'.tokenToSession && LiveSession(m', m'.tokenToSession[t], c.now)) <==> Live(r'.tokens, t, c.now)
    {
      assert (t in m.tokenToSession && LiveSession(m, m.tokenToSession[t], c.now)) <==> Live(r.tokens, t, c.now);
    }
  }

  lemma MarkAlike(m: Mem, r: Redis, c: Call)
    requires Indexed(m) && Alike(m, r, c.now) && c.op.Marks?
    ensures Alike(MemStep(m, c), RedisStep(r, c), c.now)
  {
    var token, m', r' := c.op.token, MemStep(m, c), RedisStep(r, c);
    assert token in m.tokenToSession && LiveSession(m, m.tokenToSession[token], c.now)
           <==> Live(r.tokens, token, c.now);
    forall i
      ensures LiveSession(m', i, c.now) <==> Live(r'.sessions, i, c.now)
    {
      assert LiveSession(m, i, c.now) <==> Live(r.sessions, i, c.now);
    }
    forall t
      ensures (t in m'.tokenToSession && LiveSession(m', m'.tokenToSession[t], c.now)) <==> Live(r'.tokens, t, c.now)
    {
      assert (t in m.tokenToSession && LiveSession(m, m.tokenToSession[t], c.now)) <==> Live(r.tokens, t, c.now);
    }
  }

  /** An update keeps the stores alike exactly if it is timely. */
  lemma UpdateAlike(m: Mem, r: Redis, c: Call)
    requires Indexed(m) && Alike(m, r, c.now) && c.op.Updates? && FreshCall(m, c)
    ensures Alike(MemStep(m, c), RedisStep(r, c), c.now) <==> TimelyCall(m, c)
  {
    var s, m', r' := c.op.session, MemStep(m, c), RedisStep(r, c);
    assert LiveSession(m, s.id, c.now) <==> Live(r.sessions, s.id, c.now);
    if TimelyCall(m, c) {
      TimelyUpdateAlike(m, r, c);
    } else {
      assert LiveSession(m', s.id, c.now) <==> s.id in m.sessions && c.now < s.expiresAt;
      var token := if s.id in m.sessions then s.token else "";
      assert s.id in m.sessions ==> m'.tokenToSession[token] == s.id;
      assert Live(r'.tokens, token, c.now) <==> Live(r.tokens, token, c.now);
    }
  }

  lemma TimelyUpdateAlike(m: Mem, r: Redis, c: Call)
    requires Indexed(m) && Alike(m, r, c.now) && c.op.Updates? && FreshCall(m, c) && TimelyCall(m, c)
    ensures Alike(MemStep(m, c), RedisStep(r, c), c.now)
  {
    var s, m', r' := c.op.session, MemStep(m, c), RedisStep(r, c);
    forall i
      ensures LiveSession(m', i, c.now) <==> Live(r'.sessions, i, c.now)
    {
      assert LiveSession(m, i, c.now) <==> Live(r.sessions, i, c.now);
    }
    forall t
      ensures (t in m'.tokenToSession && LiveSession(m', m'.tokenToSession[t], c.now)) <==> Live(r'.tokens, t, c.now)
    {
      assert (t in m.tokenToSession && LiveSession(m, m.tokenToSession[t], c.now)) <==> Live(r.tokens, t, c.now);
    }
  }

  lemma CleanupAlike(m: Mem, r: Redis, c: Call)
    requires Indexed(m) && Alike(m, r, c.now) && c.op.CleansUp?
    ensures Alike(MemStep(m, c), RedisStep(r, c), c.now)
  {
    var m' := Cleanup(m, c.now);
    CleanupKeepsIndex(m, c.now);
    assert forall id :: LiveSession(m', id, c.now) <==> LiveSession(m, id, c.now);
    forall t
      ensures (t in m'.tokenToSession && LiveSession(m', m'.tokenToSession[t], c.now)) <==> Live(r.tokens, t, c.now)
    {
      assert (t in m.tokenToSession && LiveSession(m, m.tokenToSession[t], c.now)) <==> Live(r.tokens, t, c.now);
    }
  }

  lemma CallKeepsIndex(m: Mem, c: Call)
    requires Indexed(m) && FreshCall(m, c)
    ensures Indexed(MemStep(m, c))
  {
    match c.op
    case Creates(id, token, mode, target, ttl) => CreateKeepsIndex(m, id, token, mode, target, c.now, ttl);
    case Looks =>
    case Updates(s) => UpdateKeepsIndex(m, s);
    case Deletes(id) => DeleteKeepsIndex(m, id);
    case Marks(token) => MarkUsedKeepsIndex(m, token);
    case CleansUp => CleanupKeepsIndex(m, c.now);
  }

  lemma CallKeepsAlike(m: Mem, r: Redis, c: Call)
    requires Indexed(m) && Alike(m, r, c.now) && FreshCall(m, c) && TimelyCall(m, c)
    ensures Alike(MemStep(m, c), RedisStep(r, c), c.now)
  {
    match c.op
    case Creates(_, _, _, _, _) => CreateAlike(m, r, c);
    case Looks =>
    case Updates(_) => UpdateAlike(m, r, c);
    case Deletes(_) => DeleteAlike(m, r, c);
    case Marks(_) => MarkAlike(m, r, c);
    case CleansUp => CleanupAlike(m, r, c);
  }

  lemma {:induction false} RunKeepsIndex(calls: seq<Call>)
    requires Orderly(calls)
    ensures Indexed(MemRun(calls))
  {
    hide Indexed;
    hide MemStep;
    if calls == [] {
      NothingAlike(0);
    } else {
      RunKeepsIndex(calls[..|calls| - 1]);
      CallKeepsIndex(MemRun(calls[..|calls| - 1]), calls[|calls| - 1]);
    }
  }

  lemma {:induction false} RunKeepsAlike(calls: seq<Call>, now: int)
    requires Orderly(calls) && Timely(calls) && (calls != [] ==> calls[|calls| - 1].now <= now)
    ensures Alike(MemRun(calls), RedisRun(calls), now)
  {
    hide Alike;
    hide Indexed;
    hide MemStep;
    hide RedisStep;
    if calls == [] {
      NothingAlike(now);
    } else {
      var n := |calls| - 1;
      RunKeepsIndex(calls[..n]);
      RunKeepsAlike(calls[..n], calls[n].now);
      CallKeepsAlike(MemRun(calls[..n]), RedisRun(calls[..n]), calls[n]);
      AlikeLater(MemRun(calls), RedisRun(calls), calls[n].now, now);
    }
  }

  lemma NothingAlike(now: int)
    ensures Indexed(NOTHING) && Alike(NOTHING, Redis(map[], map[]), now)
  {
  }

  /** What a call makes of the session id, which may not be there. */
  function Becomes(was: Option<Session>, c: Call, id: string): Option<Session>
  {
    match c.op
    case Creates(i, token, mode, target, ttl) =>
      if i == id then Some(Session(id, token, c.now, c.now + ttl, false, mode, target)) else was
    case Looks => was
    case Updates(s) => if s.id == id && was.Some? then Some(s) else was
    case Deletes(i) => if i == id then None else was
    case Marks(token) => if was.Some? && was.value.token == token then Some(was.value.(used := true)) else was
    case CleansUp => if was.Some? && c.now > was.value.expiresAt then None else was
  }

  /** What has become of the session id, told from the calls alone. */
  function History(calls: seq<Call>, id: string): Option<Session>
  {
    if calls == [] then None else Becomes(History(calls[..|calls| - 1], id), calls[|calls| - 1], id)
  }

  function Held(m: Mem, id: string): Option<Session>
  {
    if id in m.sessions then Some(m.sessions[id]) else None
  }

  lemma HeldStep(m: Mem, c: Call, id: string)
    requires Indexed(m) && FreshCall(m, c)
    ensures Held(MemStep(m, c), id) == Becomes(Held(m, id), c, id)
  {
  }

  /**
   After any orderly run the store holds exactly the sessions created and neither deleted nor cleaned up since, as they
   were created, updated and marked, and looking one up gives it up to and including its deadline.
   */
  lemma {:induction false} HeldExactly(calls: seq<Call>, id: string, now: int)
    requires Orderly(calls)
    ensures var m := MemRun(calls);
            && Held(m, id) == History(calls, id)
            && Get(m, id, now) == (match History(calls, id)
                                   case None => Err(NotFound)
                                   case Some(s) => if now <= s.expiresAt then Ok(s) else Err(Expired))
  {
    hide Indexed;
    hide MemStep;
    hide FreshCall;
    hide Becomes;
    if calls != [] {
      var n := |calls| - 1;
      HeldExactly(calls[..n], id, now);
      RunKeepsIndex(calls[..n]);
      HeldStep(MemRun(calls[..n]), calls[n], id);
    }
  }

  /** After any orderly run, looking a token up is searching all sessions for it. */
  lemma RunLookupIsScan(calls: seq<Call>, token: string, now: int, r: Result<Session>)
    requires Orderly(calls)
    ensures FoundByScan(MemRun(calls), token, now, r) <==> r == GetByToken(MemRun(calls), token, now)
  {
    hide FoundByScan;
    hide Indexed;
    RunKeepsIndex(calls);
    LookupIsScan(MemRun(calls), token, now, r);
  }

  /** Both fail, or both find the same session. */
  ghost predicate SameAnswer(a: Result<Session>, b: Result<Session>)
  {
    if a.Ok? then a == b else b.Err?
  }

  /**
   After any orderly run with timely updates the stores answer alike, by ID and by token, exactly unless the
   session's deadline is this very moment, when memory still finds it and Redis does not.
   */
  lemma StoresAnswerAlike(calls: seq<Call>, id: string, token: string, now: int)
    requires Orderly(calls) && Timely(calls) && (calls != [] ==> calls[|calls| - 1].now <= now)
    ensures var m, r := MemRun(calls), RedisRun(calls);
            && (SameAnswer(Get(m, id, now), RedisGet(r, id, now))
                <==> !(id in m.sessions && now == m.sessions[id].expiresAt))
            && (token in m.tokenToSession ==> m.tokenToSession[token] in m.sessions)
            && (SameAnswer(GetByToken(m, token, now), RedisGetByToken(r, token, now))
                <==> !(token in m.tokenToSession && now == m.sessions[m.tokenToSession[token]].expiresAt))
  {
    hide MemRun;
    hide RedisRun;
    RunKeepsIndex(calls);
    RunKeepsAlike(calls, now);
    var m, r := MemRun(calls), RedisRun(calls);
    assert LiveSession(m, id, now) <==> Live(r.sessions, id, now);
    if token in m.tokenToSession {
      var owner := m.tokenToSession[token];
      assert LiveSession(m, owner, now) <==> Live(r.sessions, owner, now);
      assert LiveSession(m, owner, now) <==> Live(r.tokens, token, now);
    }
  }

  /**
   Updating is where they can part. In time for its deadline, an update is answered alike exactly if memory holds
   the session, since Redis makes a session of any ID; too late for it, Redis refuses and memory replaces, so
   exactly if there is nothing to replace, or what is replaced was over as the new one is.
   */
  lemma UpdateAnswersAlike(m: Mem, r: Redis, s: Session, now: int)
    requires Alike(m, r, now)
    ensures SameAnswer(Get(Update(m, s), s.id, now), RedisGet(RedisUpdate(r, s, now), s.id, now))
            <==> if now < s.expiresAt then s.id in m.sessions
                 else s.id in m.sessions ==> s.expiresAt < now && !LiveSession(m, s.id, now)
  {
    assert LiveSession(m, s.id, now) <==> Live(r.sessions, s.id, now);
  }

  /** So Redis brings a deleted session back, and memory does not. */
  lemma UpdateRevivesInRedis(m: Mem, r: Redis, s: Session, now: int)
    requires now < s.expiresAt
    ensures Get(Update(Delete(m, s.id), s), s.id, now) == Err(NotFound)
    ensures RedisGet(RedisUpdate(RedisDelete(r, s.id, now), s, now), s.id, now) == Ok(s)
  {
  }

  /**
   By token and for all the time that follows, the update of a live session is answered alike exactly if it does
   not put the deadline off: Redis leaves the token's own key with the old one.
   */
  lemma ExtendingPartsByToken(m: Mem, r: Redis, s: Session, now: int)
    requires Indexed(m) && Alike(m, r, now) && LiveSession(m, s.id, now)
    requires m.sessions[s.id].token == s.token && now < s.expiresAt
    ensures (forall later {:trigger GetByToken(Update(m, s), s.token, later)} ::
               now <= later && later != s.expiresAt ==>
                 SameAnswer(GetByToken(Update(m, s), s.token, later),
                            RedisGetByToken(RedisUpdate(r, s, now), s.token, later)))
            <==> s.expiresAt <= m.sessions[s.id].expiresAt
  {
    var m', r', was := Update(m, s), RedisUpdate(r, s, now), m.sessions[s.id].expiresAt;
    assert Live(r.tokens, s.token, now);
    forall later | now <= later && later != s.expiresAt
      ensures SameAnswer(GetByToken(m', s.token, later), RedisGetByToken(r', s.token, later))
              <==> later < s.expiresAt ==> later < was
    {
    }
    assert was < s.expiresAt ==> GetByToken(m', s.token, was) == Ok(s);
  }
}
