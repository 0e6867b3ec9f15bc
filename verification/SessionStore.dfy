/**
 The two session stores of the signaling server (signaling-server/store): maps in memory and keys with
 deadlines in Redis. Times are in nanoseconds.
 */
module SessionStore {

  datatype Session = Session(id: string, token: string, createdAt: int, expiresAt: int, used: bool, mode: string,
                             target: string)

  datatype StoreError = NotFound | Expired

  datatype Result<+T> = Ok(value: T) | Err(error: StoreError)

  // ---- in memory

  datatype Mem = Mem(sessions: map<string, Session>, tokenToSession: map<string, string>)

  const NOTHING := Mem(map[], map[])

  function NewSession(id: string, token: string, mode: string, target: string, now: int, ttl: int): Session
  {
    Session(id, token, now, now + ttl, false, mode, target)
  }

  /** `id` is what the generator returned. */
  function Create(m: Mem, id: string, token: string, mode: string, target: string, now: int, ttl: int): Mem
  {
    Mem(m.sessions[id := NewSession(id, token, mode, target, now, ttl)], m.tokenToSession[token := id])
  }

  function Get(m: Mem, id: string, now: int): Result<Session>
  {
    if id !in m.sessions then Err(NotFound)
    else if now > m.sessions[id].expiresAt then Err(Expired)
    else Ok(m.sessions[id])
  }

  function GetByToken(m: Mem, token: string, now: int): Result<Session>
  {
    if token !in m.tokenToSession then Err(NotFound) else Get(m, m.tokenToSession[token], now)
  }

  function Update(m: Mem, s: Session): Mem
  {
    if s.id in m.sessions then m.(sessions := m.sessions[s.id := s]) else m
  }

  function Delete(m: Mem, id: string): Mem
  {
    if id in m.sessions then Mem(m.sessions - {id}, m.tokenToSession - {m.sessions[id].token}) else m
  }

  function MarkUsed(m: Mem, token: string): Mem
  {
    if token in m.tokenToSession && m.tokenToSession[token] in m.sessions then
      var id := m.tokenToSession[token];
      m.(sessions := m.sessions[id := m.sessions[id].(used := true)])
    else m
  }

  function ExpiredIDs(m: Mem, now: int): set<string>
  {
    set id | id in m.sessions && now > m.sessions[id].expiresAt
  }

  function TokensOf(m: Mem, ids: set<string>): set<string>
  {
    set id | id in ids && id in m.sessions :: m.sessions[id].token
  }

  /** The store without these sessions and the index entries of their tokens. */
  function Without(m: Mem, ids: set<string>): Mem
  {
    Mem(m.sessions - ids, m.tokenToSession - TokensOf(m, ids))
  }

  function Cleanup(m: Mem, now: int): Mem
  {
    Without(m, ExpiredIDs(m, now))
  }

  lemma WithoutOneMore(m: Mem, ids: set<string>, id: string)
    requires id in m.sessions && id !in ids
    ensures Without(m, ids + {id}) == Mem(Without(m, ids).sessions - {id},
                                          Without(m, ids).tokenToSession - {m.sessions[id].token})
  {
    assert TokensOf(m, ids + {id}) == TokensOf(m, ids) + {m.sessions[id].token};
    assert m.sessions - (ids + {id}) == m.sessions - ids - {id};
    assert m.tokenToSession - (TokensOf(m, ids) + {m.sessions[id].token})
        == m.tokenToSession - TokensOf(m, ids) - {m.sessions[id].token};
  }

  lemma WithoutNone(m: Mem)
    ensures Without(m, {}) == m
  {
    assert TokensOf(m, {}) == {};
    assert m.sessions - {} == m.sessions && m.tokenToSession - {} == m.tokenToSession;
  }

  class MemoryStore {
    var sessions: map<string, Session>
    var tokenToSession: map<string, string>

    function State(): Mem
      reads this
    {
      Mem(sessions, tokenToSession)
    }

    constructor ()
      ensures State() == NOTHING
    {
      sessions, tokenToSession := map[], map[];
    }

    method CreateSession(id: string, token: string, mode: string, target: string, now: int, ttl: int)
      returns (session: Session)
      modifies this
      ensures State() == Create(old(State()), id, token, mode, target, now, ttl)
      ensures Get(State(), id, now + ttl) == Ok(session)
    {
      session := Session(id, token, now, now + ttl, false, mode, target);
      sessions := sessions[id := session];
      tokenToSession := tokenToSession[token := id];
    }

    method GetSessionByToken(token: string, now: int) returns (r: Result<Session>)
      ensures r == GetByToken(State(), token, now)
    {
      if token !in tokenToSession {
        return Err(NotFound);
      }
      var id := tokenToSession[token];
      if id !in sessions {
        return Err(NotFound);
      }
      if now > sessions[id].expiresAt {
        return Err(Expired);
      }
      return Ok(sessions[id]);
    }

    method UpdateSession(session: Session) returns (found: bool)
      modifies this`sessions
      ensures State() == Update(old(State()), session) && found == (session.id in old(sessions))
    {
      if session.id !in sessions {
        return false;
      }
      sessions := sessions[session.id := session];
      return true;
    }

    method DeleteSession(id: string) returns (found: bool)
      modifies this
      ensures State() == Delete(old(State()), id) && found == (id in old(sessions))
    {
      if id !in sessions {
        return false;
      }
      tokenToSession := tokenToSession - {sessions[id].token};
      sessions := sessions - {id};
      return true;
    }

    method MarkTokenUsed(token: string) returns (found: bool)
      modifies this`sessions
      ensures State() == MarkUsed(old(State()), token)
      ensures found == (token in tokenToSession && tokenToSession[token] in old(sessions))
    {
      if token !in tokenToSession || tokenToSession[token] !in sessions {
        return false;
      }
      var id := tokenToSession[token];
      sessions := sessions[id := sessions[id].(used := true)];
      return true;
    }

    /** The loop deletes from the maps while it goes over the sessions, in any order. */
    method CleanupExpired(now: int) returns (removed: nat)
      modifies this
      ensures State() == Cleanup(old(State()), now) && removed == |ExpiredIDs(old(State()), now)|
    {
      hide Without;
      var todo := sessions.Keys;
      ghost var m := State();
      ghost var gone: set<string> := {};
      removed := 0;
      WithoutNone(m);
      while todo != {}
        invariant todo <= m.sessions.Keys && gone <= m.sessions.Keys && gone !! todo && removed == |gone|
        invariant forall id :: id in gone <==> id in ExpiredIDs(m, now) && id !in todo
        invariant State() == Without(m, gone)
        invariant forall id :: id in todo ==> id in sessions && sessions[id] == m.sessions[id]
        decreases |todo|
      {
        var id :| id in todo;
        todo := todo - {id};
        var session := sessions[id];
        if now > session.expiresAt {
          WithoutOneMore(m, gone, id);
          tokenToSession := tokenToSession - {session.token};
          sessions := sessions - {id};
          removed := removed + 1;
          gone := gone + {id};
        }
      }
      assert gone == ExpiredIDs(m, now);
    }
  }

  // ---- the token index

  /** The index is the exact inverse of the sessions' tokens. */
  ghost predicate Indexed(m: Mem)
  {
    && (forall id :: id in m.sessions ==>
          var s := m.sessions[id];
          s.id == id && s.token in m.tokenToSession && m.tokenToSession[s.token] == id)
    && (forall t :: t in m.tokenToSession ==>
          m.tokenToSession[t] in m.sessions && m.sessions[m.tokenToSession[t]].token == t)
  }

  /** What a search through all sessions for the token may answer. */
  ghost predicate FoundByScan(m: Mem, token: string, now: int, r: Result<Session>)
  {
    match r
    case Ok(s) => exists id :: id in m.sessions && m.sessions[id] == s && s.token == token && now <= s.expiresAt
    case Err(Expired) =>
      exists id :: id in m.sessions && m.sessions[id].token == token && now > m.sessions[id].expiresAt
    case Err(NotFound) => forall id :: id in m.sessions ==> m.sessions[id].token != token
  }

  /** With the index intact, looking a token up is searching for it, and the search has one answer. */
  lemma LookupIsScan(m: Mem, token: string, now: int, r: Result<Session>)
    requires Indexed(m)
    ensures FoundByScan(m, token, now, r) <==> r == GetByToken(m, token, now)
  {
    if token in m.tokenToSession {
      var id := m.tokenToSession[token];
      assert m.sessions[id].token == token;
    }
  }

  /** Creating keeps the index exactly when neither the ID nor the token belongs to another session. */
  lemma CreateKeepsIndex(m: Mem, id: string, token: string, mode: string, target: string, now: int, ttl: int)
    requires Indexed(m)
    ensures Indexed(Create(m, id, token, mode, target, now, ttl))
            <==> (id in m.sessions ==> m.sessions[id].token == token)
                 && (token in m.tokenToSession ==> m.tokenToSession[token] == id)
  {
    var m' := Create(m, id, token, mode, target, now, ttl);
    if id in m.sessions && m.sessions[id].token != token {
      assert m.sessions[id].token in m'.tokenToSession;
    }
    if token in m.tokenToSession && m.tokenToSession[token] != id {
      assert m.tokenToSession[token] in m'.sessions;
    }
  }

  /**
   The generator in the source returns the same ID every time. Then a second session takes the place of the
   first, and the first token leads to it: the holder of the first token would join the second host.
   */
  lemma ConstantIDsMixSessions(m: Mem, id: string, first: string, second: string, mode: string, target: string,
                               now: int, later: int, ttl: int)
    requires first != second && now <= later && 0 <= ttl
    ensures var m1 := Create(m, id, first, mode, target, now, ttl);
            var m2 := Create(m1, id, second, mode, target, later, ttl);
            && GetByToken(m2, first, later) == Ok(NewSession(id, second, mode, target, later, ttl))
            && !Indexed(m2)
  {
    var m2 := Create(Create(m, id, first, mode, target, now, ttl), id, second, mode, target, later, ttl);
    assert first in m2.tokenToSession;
  }

  /** Replacing a session keeps the index exactly when it keeps the token. */
  lemma UpdateKeepsIndex(m: Mem, s: Session)
    requires Indexed(m)
    ensures Indexed(Update(m, s)) <==> (s.id in m.sessions ==> m.sessions[s.id].token == s.token)
  {
    var m' := Update(m, s);
    if s.id in m.sessions && m.sessions[s.id].token != s.token {
      assert m.sessions[s.id].token in m'.tokenToSession;
      assert s.id in m'.sessions;
    }
  }

  lemma DeleteKeepsIndex(m: Mem, id: string)
    requires Indexed(m)
    ensures Indexed(Delete(m, id))
  {
  }

  lemma MarkUsedKeepsIndex(m: Mem, token: string)
    requires Indexed(m)
    ensures Indexed(MarkUsed(m, token))
  {
  }

  /**
   Cleaning up keeps the index, takes exactly the expired sessions, changes no lookup of another session,
   turns "expired" into "not found", and does nothing when repeated.
   */
  lemma CleanupIsExact(m: Mem, now: int, token: string, id: string)
    requires Indexed(m)
    ensures var m' := Cleanup(m, now);
            && Indexed(m') && Cleanup(m', now) == m'
            && (id in m'.sessions <==> id in m.sessions && now <= m.sessions[id].expiresAt)
            && Get(m', id, now) == (if Get(m, id, now).Ok? then Get(m, id, now) else Err(NotFound))
            && GetByToken(m', token, now)
               == (if GetByToken(m, token, now).Ok? then GetByToken(m, token, now) else Err(NotFound))
  {
    var m' := Cleanup(m, now);
    var gone := ExpiredIDs(m, now);
    CleanupKeepsIndex(m, now);
    assert ExpiredIDs(m', now) == {};
    WithoutNone(m');
    if token in m.tokenToSession {
      var owner := m.tokenToSession[token];
      assert m.sessions[owner].token == token;
      assert token in m'.tokenToSession <==> owner !in gone;
    }
  }

  lemma CleanupKeepsIndex(m: Mem, now: int)
    requires Indexed(m)
    ensures Indexed(Cleanup(m, now))
    ensures forall t :: t in Cleanup(m, now).tokenToSession <==>
              t in m.tokenToSession && m.tokenToSession[t] !in ExpiredIDs(m, now)
  {
    var gone := ExpiredIDs(m, now);
    forall t | t in m.tokenToSession
      ensures t in TokensOf(m, gone) <==> m.tokenToSession[t] in gone
    {
      var owner := m.tokenToSession[t];
      assert m.sessions[owner].token == t;
    }
  }
}
