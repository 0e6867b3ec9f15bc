/**
 The rate limiter inside the signaling server: how many sessions can be created over any run under one key of the
 limiter, and from one host, whose connections come under a key for every port.
 */
module SignalingLimits {
  import R = RateLimiter
  import S = SessionStore
  import opened Bytes
  import opened Signaling

  type Keys = set<Address>

  /** The step handles a create message from one of these addresses. */
  ghost predicate TriesToCreate(s: Server, a: Action, keys: Keys)
  {
    && a.Says? && a.msg.kind.Create? && a.c in s.conns && s.conns[a.c].open && s.conns[a.c].remote in keys
    && TimestampOK(a.msg.timestamp, a.env.now)
  }

  /** And answers it with a session. */
  ghost predicate Creates(s: Server, a: Action, keys: Keys)
  {
    TriesToCreate(s, a, keys) && exists o :: o in Step(s, a).outs && o.msg.kind == SessionCreated
  }

  /** When in a run these addresses tried to create sessions, and when they got one. */
  ghost function Attempts(run: seq<Action>, keys: Keys): seq<int>
  {
    if run == [] then []
    else
      var n := |run| - 1;
      Attempts(run[..n], keys)
      + (if TriesToCreate(Run(START, run[..n]).server, run[n], keys) then [run[n].env.now] else [])
  }

  ghost function Created(run: seq<Action>, keys: Keys): seq<int>
  {
    if run == [] then []
    else
      var n := |run| - 1;
      Created(run[..n], keys) + (if Creates(Run(START, run[..n]).server, run[n], keys) then [run[n].env.now] else [])
  }

  // ---- one key

  lemma StepLimits(s: Server, a: Action, key: Address)
    ensures TriesToCreate(s, a, {key}) ==>
              && Stamps(Step(s, a).server, key) == R.Check(Stamps(s, key), a.env.now).timestamps
              && (Creates(s, a, {key}) ==> R.Check(Stamps(s, key), a.env.now).ok)
    ensures !TriesToCreate(s, a, {key}) ==> Stamps(Step(s, a).server, key) == Stamps(s, key)
  {
    hide R.Check;
    hide S.GetByToken;
    hide S.Create;
    hide S.Delete;
    hide S.Cleanup;
  }

  /** The server's list for a key is what the limiter's own history of its attempts leaves. */
  lemma {:induction false} ListFollowsAttempts(run: seq<Action>, key: Address)
    ensures Stamps(Run(START, run).server, key) == R.Calls(Attempts(run, {key})).timestamps
  {
    hide R.Check;
    hide Step;
    if run != [] {
      var n := |run| - 1;
      var before := Attempts(run[..n], {key});
      ListFollowsAttempts(run[..n], key);
      StepLimits(Run(START, run[..n]).server, run[n], key);
      if run[n].Says? {
        R.CallsSnoc(before, run[n].env.now);
      }
      assert before + [] == before;
    }
  }

  /** What the step counts for, in the window (lo, hi]. */
  ghost function Counts(s: Server, a: Action, keys: Keys, lo: int, hi: int): nat
  {
    if Creates(s, a, keys) && lo < a.env.now <= hi then 1 else 0
  }

  lemma CreatedSnoc(run: seq<Action>, a: Action, keys: Keys, lo: int, hi: int)
    ensures R.CountIn(Created(run + [a], keys), lo, hi)
            == R.CountIn(Created(run, keys), lo, hi) + Counts(Run(START, run).server, a, keys, lo, hi)
  {
    hide Step;
    hide TimestampOK;
    hide Run;
    assert (run + [a])[..|run|] == run;
    if a.Says? {
      R.CountSnoc(Created(run, keys), a.env.now, lo, hi);
    }
    assert Created(run, keys) + [] == Created(run, keys);
  }

  lemma AttemptsSnoc(run: seq<Action>, a: Action, keys: Keys)
    ensures Attempts(run + [a], keys)
            == Attempts(run, keys) + (if TriesToCreate(Run(START, run).server, a, keys) then [a.env.now] else [])
  {
    hide TriesToCreate;
    hide Run;
    assert (run + [a])[..|run|] == run;
  }

  /** A counted step's call is accepted. */
  lemma AcceptedSnoc(run: seq<Action>, a: Action, key: Address, lo: int, hi: int)
    ensures R.CountIn(R.Calls(Attempts(run + [a], {key})).accepted, lo, hi)
            >= R.CountIn(R.Calls(Attempts(run, {key})).accepted, lo, hi)
               + Counts(Run(START, run).server, a, {key}, lo, hi)
  {
    hide R.Check;
    hide R.Calls;
    hide Attempts;
    hide Run;
    hide Stamps;
    hide Step;
    hide TimestampOK;
    var tried := Attempts(run, {key});
    AttemptsSnoc(run, a, {key});
    ListFollowsAttempts(run, key);
    StepLimits(Run(START, run).server, a, key);
    if a.Says? {
      R.CallsSnoc(tried, a.env.now);
      R.CountSnoc(R.Calls(tried).accepted, a.env.now, lo, hi);
    }
    assert tried + [] == tried;
  }

  lemma NothingAtFirst(keys: Keys, lo: int, hi: int)
    ensures R.CountIn(Created([], keys), lo, hi) == 0
  {
  }

  /** Every session given out is an accepted call. */
  lemma {:induction false} CreatedAreAccepted(run: seq<Action>, key: Address, lo: int, hi: int)
    ensures R.CountIn(Created(run, {key}), lo, hi) <= R.CountIn(R.Calls(Attempts(run, {key})).accepted, lo, hi)
  {
    hide Created;
    hide Attempts;
    hide R.Calls;
    hide R.CountIn;
    hide Run;
    if run == [] {
      NothingAtFirst({key}, lo, hi);
    } else {
      var n := |run| - 1;
      CreatedAreAccepted(run[..n], key, lo, hi);
      CreatedSnoc(run[..n], run[n], {key}, lo, hi);
      AcceptedSnoc(run[..n], run[n], key, lo, hi);
      assert run == run[..n] + [run[n]];
    }
  }

  /**
   Over any run, however connections come and go, a key whose attempts are timed by a clock that does not go
   back is given at most ten sessions in any 60 seconds.
   */
  lemma TenSessionsPerMinute(run: seq<Action>, key: Address, start: int)
    requires R.Sorted(Attempts(run, {key}))
    ensures R.CountIn(Created(run, {key}), start, start + R.WINDOW) <= R.MAX_TOKENS_PER_MINUTE
  {
    CreatedAreAccepted(run, key, start, start + R.WINDOW);
    R.AtMostTenPerWindow(Attempts(run, {key}), start);
  }

  // ---- the keys of one host

  ghost predicate AllSorted(run: seq<Action>, keys: Keys)
  {
    forall k :: k in keys ==> R.Sorted(Attempts(run, {k}))
  }

  /** A session is created under one key. */
  lemma {:induction false} CreatedUnderOne(run: seq<Action>, keys: Keys, key: Address, lo: int, hi: int)
    requires key !in keys
    ensures R.CountIn(Created(run, keys + {key}), lo, hi)
            == R.CountIn(Created(run, keys), lo, hi) + R.CountIn(Created(run, {key}), lo, hi)
  {
    hide Created;
    hide R.CountIn;
    hide Run;
    hide Counts;
    if run == [] {
      NothingAtFirst(keys + {key}, lo, hi);
      NothingAtFirst(keys, lo, hi);
      NothingAtFirst({key}, lo, hi);
    } else {
      var n := |run| - 1;
      CreatedUnderOne(run[..n], keys, key, lo, hi);
      CreatedSnoc(run[..n], run[n], keys + {key}, lo, hi);
      CreatedSnoc(run[..n], run[n], keys, lo, hi);
      CreatedSnoc(run[..n], run[n], {key}, lo, hi);
      CountsUnderOne(Run(START, run[..n]).server, run[n], keys, key, lo, hi);
      assert run == run[..n] + [run[n]];
    }
  }

  lemma CountsUnderOne(s: Server, a: Action, keys: Keys, key: Address, lo: int, hi: int)
    requires key !in keys
    ensures Counts(s, a, keys + {key}, lo, hi) == Counts(s, a, keys, lo, hi) + Counts(s, a, {key}, lo, hi)
  {
    hide Step;
    hide TimestampOK;
  }

  lemma {:induction false} NothingUnderNoKey(run: seq<Action>)
    ensures Created(run, {}) == []
  {
    if run != [] {
      NothingUnderNoKey(run[..|run| - 1]);
    }
  }

  /** A set of keys gets at most ten sessions for each of them. */
  lemma {:induction false} TenPerKey(run: seq<Action>, keys: Keys, start: int)
    requires AllSorted(run, keys)
    ensures R.CountIn(Created(run, keys), start, start + R.WINDOW) <= R.MAX_TOKENS_PER_MINUTE * |keys|
    decreases |keys|
  {
    if keys == {} {
      NothingUnderNoKey(run);
    } else {
      var key :| key in keys;
      var others := keys - {key};
      TenPerKey(run, others, start);
      assert others + {key} == keys;
      CreatedUnderOne(run, others, key, start, start + R.WINDOW);
      TenSessionsPerMinute(run, key, start);
    }
  }

  ghost function InWindow(run: seq<Action>, keys: Keys, start: int): nat
  {
    R.CountIn(Created(run, keys), start, start + R.WINDOW)
  }

  /** No run gives these keys more than ten sessions in a window. */
  ghost predicate TenIsKept(keys: Keys)
  {
    forall run, start :: DisciplinedRun(START, run) && AllSorted(run, keys) ==>
      InWindow(run, keys, start) <= R.MAX_TOKENS_PER_MINUTE
  }

  // ---- a burst of creates, each over a connection of its own, all at the time 1

  const CREATE := SignalMessage(Create, "", "", "", "", 0)

  function Creating(n: nat): Env
  {
    Env(1, Some(("", "")), Some(seq(n + 1, _ => 't')), seq(n + 1, _ => 's'), None)
  }

  function Burst(keys: seq<Address>): seq<Action>
  {
    if keys == [] then []
    else
      var n := |keys| - 1;
      Burst(keys[..n]) + [Connects(n, keys[n])] + [Says(n, CREATE, Creating(n))]
  }

  function Uses(keys: seq<Address>, among: Keys): nat
  {
    if keys == [] then 0
    else Uses(keys[..|keys| - 1], among) + (if keys[|keys| - 1] in among then 1 else 0)
  }

  function Used(keys: seq<Address>, k: Address): nat
  {
    if keys == [] then 0 else Used(keys[..|keys| - 1], k) + (if keys[|keys| - 1] == k then 1 else 0)
  }

  lemma UsedSnoc(keys: seq<Address>, k: Address, a: Address)
    ensures Used(keys + [k], a) == Used(keys, a) + if a == k then 1 else 0
  {
    assert (keys + [k])[..|keys|] == keys;
  }

  function Ones(n: nat): seq<int>
  {
    seq(n, _ => 1)
  }

  /** The limiter lets every create of the burst through. */
  predicate WithinLimit(keys: seq<Address>)
  {
    keys == [] ||
    (WithinLimit(keys[..|keys| - 1]) && Used(keys[..|keys| - 1], keys[|keys| - 1]) < R.MAX_TOKENS_PER_MINUTE)
  }

  /** The state after a burst: everything with a number below n is taken. */
  ghost predicate Filled(s: Server, keys: seq<Address>)
  {
    && (forall c :: c in s.conns ==> c < |keys|)
    && (forall id :: id in s.issued ==> |id| <= |keys|)
    && (forall token :: token in s.store.tokenToSession ==> |token| <= |keys|)
    && Tallied(s, keys)
  }

  ghost predicate Tallied(s: Server, keys: seq<Address>)
  {
    forall k :: Stamps(s, k) == Ones(Used(keys, k))
  }

  lemma {:induction false} OnesAfter(n: nat)
    ensures R.After(Ones(n), 1 - R.WINDOW) == Ones(n)
  {
    if n > 0 {
      OnesAfter(n - 1);
      assert Ones(n)[..n - 1] == Ones(n - 1);
      assert Ones(n) == Ones(n - 1) + [1];
    }
  }

  lemma CheckOnes(n: nat)
    requires n < R.MAX_TOKENS_PER_MINUTE
    ensures R.Check(Ones(n), 1) == R.Checked(Ones(n + 1), true)
  {
    OnesAfter(n);
    assert Ones(n) + [1] == Ones(n + 1);
  }

  lemma CreateAt(s: Server, n: nat)
    requires n in s.conns && s.conns[n].open && R.Check(Stamps(s, s.conns[n].remote), 1).ok
    ensures var r := Step(s, Says(n, CREATE, Creating(n)));
            && r.server.conns.Keys == s.conns.Keys
            && r.server.issued == s.issued + {Creating(n).sessionID}
            && r.server.store.tokenToSession.Keys == s.store.tokenToSession.Keys + {Creating(n).token.value}
            && r.server.limiter == s.limiter[s.conns[n].remote := R.Check(Stamps(s, s.conns[n].remote), 1).timestamps]
            && |r.outs| == 1 && r.outs[0].msg.kind == SessionCreated
  {
    hide R.Check;
  }

  lemma TalliedAfter(s: Server, s1: Server, keys: seq<Address>, k: Address)
    requires Tallied(s, keys) && s1.limiter == s.limiter[k := Ones(Used(keys, k) + 1)]
    ensures Tallied(s1, keys + [k])
  {
    hide Ones;
    hide Used;
    forall a
      ensures Stamps(s1, a) == Ones(Used(keys + [k], a))
    {
      UsedSnoc(keys, k, a);
      assert Stamps(s, a) == Ones(Used(keys, a));
    }
  }

  lemma ConnectAt(s: Server, n: nat, k: Address)
    requires n !in s.conns
    ensures Disciplined(s, Connects(n, k))
    ensures Step(s, Connects(n, k)).server == s.(conns := s.conns[n := Conn(k, "", "", false, false, true)])
  {
  }

  lemma OneMoreCreate(s: Server, keys: seq<Address>, k: Address)
    requires Filled(s, keys) && Used(keys, k) < R.MAX_TOKENS_PER_MINUTE
    ensures var n := |keys|;
            var s1 := Step(s, Connects(n, k)).server;
            && Disciplined(s, Connects(n, k)) && Disciplined(s1, Says(n, CREATE, Creating(n)))
            && n in s1.conns && s1.conns[n].open && s1.conns[n].remote == k
            && Filled(Step(s1, Says(n, CREATE, Creating(n))).server, keys + [k])
            && |Step(s1, Says(n, CREATE, Creating(n))).outs| == 1
            && Step(s1, Says(n, CREATE, Creating(n))).outs[0].msg.kind == SessionCreated
  {
    hide Ones;
    hide Used;
    hide R.Check;
    hide Disciplined;
    hide Step;
    hide Creating;
    hide Tallied;
    var n := |keys|;
    var s1 := Step(s, Connects(n, k)).server;
    ConnectAt(s, n, k);
    assert Stamps(s1, k) == Stamps(s, k) == Ones(Used(keys, k)) by {
      TalliedAt(s, keys, k);
    }
    CheckOnes(Used(keys, k));
    CreateAt(s1, n);
    var s2 := Step(s1, Says(n, CREATE, Creating(n))).server;
    FreshAt(s1, n);
    Lengths(n);
    TalliedAfter(s, s2, keys, k);
    hide Stamps;
  }

  lemma TalliedAt(s: Server, keys: seq<Address>, k: Address)
    requires Tallied(s, keys)
    ensures Stamps(s, k) == Ones(Used(keys, k))
  {
  }

  lemma Lengths(n: nat)
    ensures |Creating(n).sessionID| == n + 1 && Creating(n).token.Some? && |Creating(n).token.value| == n + 1
  {
  }

  lemma FreshAt(s: Server, n: nat)
    requires n in s.conns && !HasRole(s, n)
    requires forall id :: id in s.issued ==> |id| <= n
    requires forall token :: token in s.store.tokenToSession ==> |token| <= n
    ensures Disciplined(s, Says(n, CREATE, Creating(n)))
  {
    hide MakesHost;
  }

  lemma CountsOne(s: Server, a: Action, among: Keys)
    requires a.Says? && a.msg == CREATE && a.env.now == 1 && a.c in s.conns && s.conns[a.c].open
    requires |Step(s, a).outs| == 1 && Step(s, a).outs[0].msg.kind == SessionCreated
    ensures Counts(s, a, among, 0, R.WINDOW) == if s.conns[a.c].remote in among then 1 else 0
  {
    assert Step(s, a).outs[0] in Step(s, a).outs;
    hide Step;
  }

  lemma NothingFilled()
    ensures Filled(START, [])
  {
  }

  lemma {:induction false} BurstFills(keys: seq<Address>, among: Keys)
    requires WithinLimit(keys)
    ensures Filled(Run(START, Burst(keys)).server, keys) && DisciplinedRun(START, Burst(keys))
    ensures InWindow(Burst(keys), among, 0) == Uses(keys, among)
  {
    hide Step;
    hide Filled;
    hide Created;
    hide R.CountIn;
    hide Disciplined;
    if keys == [] {
      NothingFilled();
      NothingAtFirst(among, 0, R.WINDOW);
    } else {
      var n := |keys| - 1;
      BurstFills(keys[..n], among);
      BurstGrows(keys[..n], keys[n], among);
      assert keys[..n] + [keys[n]] == keys;
      hide Run;
      hide DisciplinedRun;
    }
  }

  lemma BurstGrows(keys: seq<Address>, k: Address, among: Keys)
    requires Filled(Run(START, Burst(keys)).server, keys) && DisciplinedRun(START, Burst(keys))
    requires Used(keys, k) < R.MAX_TOKENS_PER_MINUTE
    ensures Filled(Run(START, Burst(keys + [k])).server, keys + [k]) && DisciplinedRun(START, Burst(keys + [k]))
    ensures InWindow(Burst(keys + [k]), among, 0) == InWindow(Burst(keys), among, 0) + if k in among then 1 else 0
  {
    var n, before := |keys|, Burst(keys);
    var connects, creates := Connects(n, k), Says(n, CREATE, Creating(n));
    var s := Run(START, before).server;
    BurstSnoc(keys, k);
    OneMoreCreate(s, keys, k);
    CountsOne(Step(s, connects).server, creates, among);
    TwoSteps(before, connects, creates, among);
    hide Run;
    hide Burst;
    hide DisciplinedRun;
    hide InWindow;
    hide Step;
    hide Filled;
    hide Disciplined;
    hide Counts;
  }

  lemma BurstSnoc(keys: seq<Address>, k: Address)
    ensures Burst(keys + [k]) == Burst(keys) + [Connects(|keys|, k)] + [Says(|keys|, CREATE, Creating(|keys|))]
  {
    assert (keys + [k])[..|keys|] == keys;
  }

  lemma TwoSteps(run: seq<Action>, a: Action, b: Action, keys: Keys)
    requires !a.Says?
    ensures var s := Run(START, run).server;
            var s1 := Step(s, a).server;
            && Run(START, run + [a] + [b]).server == Step(s1, b).server
            && (DisciplinedRun(START, run + [a] + [b])
                <==> DisciplinedRun(START, run) && Disciplined(s, a) && Disciplined(s1, b))
            && InWindow(run + [a] + [b], keys, 0) == InWindow(run, keys, 0) + Counts(s1, b, keys, 0, R.WINDOW)
  {
    RunSnoc(run, a);
    RunSnoc(run + [a], b);
    CreatedSnoc(run, a, keys, 0, R.WINDOW);
    CreatedSnoc(run + [a], b, keys, 0, R.WINDOW);
    hide Run;
    hide DisciplinedRun;
    hide Created;
    hide R.CountIn;
    hide Step;
    hide Disciplined;
  }

  lemma RunSnoc(run: seq<Action>, a: Action)
    ensures Run(START, run + [a]).server == Step(Run(START, run).server, a).server
    ensures DisciplinedRun(START, run + [a]) <==> DisciplinedRun(START, run) && Disciplined(Run(START, run).server, a)
  {
    assert (run + [a])[..|run|] == run;
    hide Step;
    hide Disciplined;
  }

  lemma {:induction false} AllAtOnce(run: seq<Action>, keys: Keys)
    requires forall i :: 0 <= i < |run| && run[i].Says? ==> run[i].env.now == 1
    ensures forall i :: 0 <= i < |Attempts(run, keys)| ==> Attempts(run, keys)[i] == 1
  {
    if run != [] {
      AllAtOnce(run[..|run| - 1], keys);
      hide Run;
    }
  }

  lemma {:induction false} BurstAtOnce(keys: seq<Address>)
    ensures forall i :: 0 <= i < |Burst(keys)| && Burst(keys)[i].Says? ==> Burst(keys)[i].env.now == 1
  {
    if keys != [] {
      BurstAtOnce(keys[..|keys| - 1]);
    }
  }

  /** The address a, n times. */
  lemma {:induction false} SameKey(n: nat, a: Address, b: Address)
    requires n <= R.MAX_TOKENS_PER_MINUTE && a != b
    ensures var keys := seq(n, _ => a);
            WithinLimit(keys) && Used(keys, a) == n && Used(keys, b) == 0
            && forall among: Keys :: a in among ==> Uses(keys, among) == n
  {
    if n > 0 {
      SameKey(n - 1, a, b);
      assert seq(n, _ => a)[..n - 1] == seq(n - 1, _ => a);
    }
  }

  /** Eleven sessions in one window for the keys a and b, which may be two ports of one host, ten of them under a. */
  lemma ElevenUnderTwo(keys: Keys, a: Address, b: Address)
    requires a in keys && b in keys && a != b
    ensures var run := Burst(seq(R.MAX_TOKENS_PER_MINUTE, _ => a) + [b]);
            && DisciplinedRun(START, run) && AllSorted(run, keys)
            && InWindow(run, keys, 0) == R.MAX_TOKENS_PER_MINUTE + 1
  {
    hide Run;
    hide Burst;
    hide DisciplinedRun;
    hide InWindow;
    var tens := seq(R.MAX_TOKENS_PER_MINUTE, _ => a);
    SameKey(R.MAX_TOKENS_PER_MINUTE, a, b);
    assert (tens + [b])[..|tens|] == tens;
    BurstFills(tens + [b], keys);
    BurstAtOnce(tens + [b]);
    forall k | k in keys
      ensures R.Sorted(Attempts(Burst(tens + [b]), {k}))
    {
      AllAtOnce(Burst(tens + [b]), {k});
    }
  }

  /**
   The limit of ten is meant for a host, but a host has as many keys as ports. Over all runs the keys that its
   connections come under are held to ten sessions per window exactly if they are no more than one.
   */
  lemma TenForOneKeyOnly(keys: Keys)
    ensures TenIsKept(keys) <==> |keys| <= 1
  {
    if |keys| <= 1 {
      forall run, start | DisciplinedRun(START, run) && AllSorted(run, keys)
        ensures InWindow(run, keys, start) <= R.MAX_TOKENS_PER_MINUTE
      {
        TenPerKey(run, keys, start);
      }
    } else {
      var a :| a in keys;
      assert |keys - {a}| >= 1;
      var b :| b in keys - {a};
      ElevenUnderTwo(keys, a, b);
    }
    hide DisciplinedRun;
    hide AllSorted;
    hide InWindow;
  }
}
