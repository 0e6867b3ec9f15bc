/**
 The reconnection loop (internal/state/reconnect.go) against the closed form of a whole run of it. What the
 world does to one turn of the loop is a Turn: whether Stop is called, at which of three points, whether a wait
 during which it is called elapses all the same, and whether the attempt succeeds.
 */
module Reconnect {
  import opened Backoff

  datatype Turn = Turn(stopFirst: bool, stopInWait: bool, elapses: bool, stopInTry: bool, succeeds: bool)

  datatype Event = Waited(delay: int) | Failed(attempt: nat) | Succeeded(attempt: nat) | GaveUp

  /** The manager's fields, the local delay, whether the loop has returned, and what has happened so far. */
  datatype Loop = Loop(attempts: nat, isActive: bool, cancelled: bool, delay: int, ended: bool, log: seq<Event>)

  /** Start has been called on a manager that was not active. */
  function Started(c: Config, cancelled: bool): Loop
  {
    Loop(0, true, cancelled, c.initialDelay, false, [])
  }

  function Stopped(l: Loop, stop: bool): Loop
  {
    if stop then l.(isActive := false, cancelled := true) else l
  }

  predicate Exhausted(c: Config, attempt: nat)
  {
    c.maxAttempts > 0 && attempt > c.maxAttempts
  }

  /**
   The timer wins the select. When the manager has been cancelled before the wait begins, only a timer that is
   ready at once can, one without a positive delay.
   */
  predicate Elapses(cancelled: bool, delay: int, t: Turn)
  {
    if cancelled then t.elapses && delay <= 0 else t.elapses || !t.stopInWait
  }

  /** One turn; `calls` says whether there is a function to call for the attempt. */
  function Turned(c: Config, calls: bool, l: Loop, t: Turn): Loop
  {
    if l.ended then l
    else
      var l1 := Stopped(l, t.stopFirst);
      if !l1.isActive then l1.(ended := true)
      else
        var attempt := l1.attempts + 1;
        var l2 := l1.(attempts := attempt);
        if Exhausted(c, attempt) then l2.(isActive := false, ended := true, log := l2.log + [GaveUp])
        else
          var l3 := Stopped(l2, t.stopInWait);
          if !Elapses(l2.cancelled, l2.delay, t) then l3.(ended := true)
          else Tried(c, calls, l3.(log := l3.log + [Waited(l3.delay)]), t)
  }

  /** The attempt after the wait. */
  function Tried(c: Config, calls: bool, l: Loop, t: Turn): Loop
  {
    if !calls then l.(delay := Grow(c, l.delay))
    else
      var l1 := Stopped(l, t.stopInTry);
      if t.succeeds then
        l1.(isActive := false, attempts := 0, ended := true, log := l1.log + [Succeeded(l1.attempts)])
      else
        l1.(log := l1.log + [Failed(l1.attempts)], delay := Grow(c, l1.delay))
  }

  function Run(c: Config, calls: bool, start: Loop, turns: seq<Turn>): Loop
  {
    if turns == [] then start
    else Turned(c, calls, Run(c, calls, start, turns[..|turns| - 1]), turns[|turns| - 1])
  }

  class ReconnectManager {
    const config: Config
    const hasReconnect: bool
    var attempts: nat
    var isActive: bool
    var cancelled: bool
    /** what the callbacks and the timer have seen since the last start */
    var log: seq<Event>

    constructor (config: Config, hasReconnect: bool)
      ensures this.config == config && this.hasReconnect == hasReconnect
      ensures attempts == 0 && !isActive && !cancelled && log == []
    {
      this.config, this.hasReconnect := config, hasReconnect;
      attempts, isActive, cancelled, log := 0, false, false, [];
    }

    /** `spawned` says that a loop is to run. */
    method Start() returns (spawned: bool)
      modifies this
      ensures spawned == !old(isActive) && isActive && cancelled == old(cancelled)
      ensures !spawned ==> attempts == old(attempts) && log == old(log)
      ensures spawned ==>
                Loop(attempts, isActive, cancelled, config.initialDelay, false, log) == Started(config, cancelled)
    {
      if isActive {
        return false;
      }
      isActive, attempts, log := true, 0, [];
      return true;
    }

    method Stop()
      modifies this`isActive, this`cancelled
      ensures !isActive && cancelled
    {
      isActive, cancelled := false, true;
    }

    method ReconnectLoop(turns: seq<Turn>) returns (ended: bool, delay: int)
      requires isActive && attempts == 0 && log == []
      modifies this
      ensures Loop(attempts, isActive, cancelled, delay, ended, log)
              == Run(config, hasReconnect, Started(config, old(cancelled)), turns)
    {
      delay, ended := config.initialDelay, false;
      ghost var start := Started(config, cancelled);
      for i := 0 to |turns|
        invariant !ended
        invariant Loop(attempts, isActive, cancelled, delay, false, log) == Run(config, hasReconnect, start, turns[..i])
      {
        ghost var l := Run(config, hasReconnect, start, turns[..i]);
        var t := turns[i];
        assert turns[..i + 1][..i] == turns[..i];
        ended, delay := OneTurn(delay, t);
        assert Loop(attempts, isActive, cancelled, delay, ended, log)
            == Run(config, hasReconnect, start, turns[..i + 1]);
        if ended {
          EndedStays(config, hasReconnect, start, turns, i + 1);
          return;
        }
      }
      assert turns[..|turns|] == turns;
    }

    method OneTurn(delay: int, t: Turn) returns (ended: bool, next: int)
      modifies this
      ensures Loop(attempts, isActive, cancelled, next, ended, log)
              == Turned(config, hasReconnect,
                        Loop(old(attempts), old(isActive), old(cancelled), delay, false, old(log)), t)
    {
      hide Grow;
      next := delay;
      if t.stopFirst {
        Stop();
      }
      if !isActive {
        return true, next;
      }
      attempts := attempts + 1;
      var attempt := attempts;
      if config.maxAttempts > 0 && attempt > config.maxAttempts {
        isActive := false;
        log := log + [GaveUp];
        return true, next;
      }
      var elapses := Elapses(cancelled, delay, t);
      if t.stopInWait {
        Stop();
      }
      if !elapses {
        return true, next;
      }
      log := log + [Waited(delay)];
      if hasReconnect {
        if t.stopInTry {
          Stop();
        }
        if t.succeeds {
          isActive := false;
          attempts := 0;
          log := log + [Succeeded(attempt)];
          return true, next;
        }
        log := log + [Failed(attempt)];
      }
      next := Grow(config, delay);
      return false, next;
    }
  }

  lemma {:induction false} EndedStays(c: Config, calls: bool, start: Loop, turns: seq<Turn>, n: nat)
    requires n <= |turns| && Run(c, calls, start, turns[..n]).ended
    ensures Run(c, calls, start, turns) == Run(c, calls, start, turns[..n])
  {
    if n == |turns| {
      assert turns[..n] == turns;
    } else {
      assert turns[..|turns| - 1][..n] == turns[..n];
      EndedStays(c, calls, start, turns[..|turns| - 1], n);
    }
  }

  // ---- a run that nobody stops

  /** What n attempts in a row that fail leave in the log. */
  function FailedAttempts(c: Config, calls: bool, n: nat): seq<Event>
  {
    if n == 0 then []
    else FailedAttempts(c, calls, n - 1) + [Waited(Wait(c, n))] + (if calls then [Failed(n)] else [])
  }

  predicate NoStop(turns: seq<Turn>)
  {
    forall i :: 0 <= i < |turns| ==> !turns[i].stopFirst && !turns[i].stopInWait && !turns[i].stopInTry
  }

  /** The number of turns before the first whose attempt would succeed. */
  function Fruitless(turns: seq<Turn>): (n: nat)
    ensures n <= |turns|
    ensures forall i :: 0 <= i < n ==> !turns[i].succeeds
    ensures n < |turns| ==> turns[n].succeeds
  {
    if turns == [] then 0
    else
      var n := Fruitless(turns[..|turns| - 1]);
      if n < |turns| - 1 || turns[n].succeeds then n else |turns|
  }

  /** How a run goes that nobody stops, all at once. */
  function Course(c: Config, calls: bool, turns: seq<Turn>): Loop
  {
    var n := if calls then Fruitless(turns) else |turns|;
    if c.maxAttempts > 0 && n >= c.maxAttempts && |turns| > c.maxAttempts then
      Loop(c.maxAttempts + 1, false, false, Wait(c, c.maxAttempts + 1), true,
           FailedAttempts(c, calls, c.maxAttempts) + [GaveUp])
    else if n < |turns| then
      Loop(0, false, false, Wait(c, n + 1), true,
           FailedAttempts(c, calls, n) + [Waited(Wait(c, n + 1)), Succeeded(n + 1)])
    else
      Loop(n, true, false, Wait(c, n + 1), false, FailedAttempts(c, calls, n))
  }

  /**
   The whole run in closed form: every attempt waits as long as Wait says, failures are reported as 1, 2, ...
   in order, and the loop ends with the first success or by giving up after the last attempt, and only then.
   */
  lemma {:induction false} RunFollowsCourse(c: Config, calls: bool, turns: seq<Turn>)
    requires NoStop(turns)
    ensures Run(c, calls, Started(c, false), turns) == Course(c, calls, turns)
  {
    if turns != [] {
      var n := |turns| - 1;
      assert NoStop(turns[..n]);
      RunFollowsCourse(c, calls, turns[..n]);
      CourseStep(c, calls, turns);
    }
    hide Turned;
    hide Course;
    hide NoStop;
  }

  lemma CourseStep(c: Config, calls: bool, turns: seq<Turn>)
    requires NoStop(turns) && turns != []
    ensures Turned(c, calls, Course(c, calls, turns[..|turns| - 1]), turns[|turns| - 1]) == Course(c, calls, turns)
  {
    hide Grow;
  }

  // ---- any run

  function Unstopped(turns: seq<Turn>): seq<Turn>
  {
    seq(|turns|, i requires 0 <= i < |turns| => Turn(false, false, true, false, turns[i].succeeds))
  }

  /** How a run stands to the same run without the calls of Stop. */
  ghost predicate CutShort(l: Loop, u: Loop)
  {
    l.log <= u.log && (!l.ended ==> if l.isActive then l == u && !l.cancelled else l.log == u.log)
  }

  lemma CutShortStep(c: Config, calls: bool, l: Loop, u: Loop, t: Turn)
    requires CutShort(l, u)
    ensures CutShort(Turned(c, calls, l, t), Turned(c, calls, u, Turn(false, false, true, false, t.succeeds)))
  {
    hide Grow;
    hide Exhausted;
  }

  /** All that Stop ever does is cut a run short: what happens until then is what would have happened without. */
  lemma {:induction false} StopOnlyCutsShort(c: Config, calls: bool, turns: seq<Turn>)
    ensures CutShort(Run(c, calls, Started(c, false), turns), Run(c, calls, Started(c, false), Unstopped(turns)))
  {
    hide Turned;
    if turns != [] {
      var n := |turns| - 1;
      StopOnlyCutsShort(c, calls, turns[..n]);
      assert Unstopped(turns)[..n] == Unstopped(turns[..n]);
      CutShortStep(c, calls, Run(c, calls, Started(c, false), turns[..n]),
                   Run(c, calls, Started(c, false), Unstopped(turns[..n])), turns[n]);
    }
  }

  /** And it does so by the end of the next turn at the latest, whatever the maximum. */
  lemma StopEndsLoop(c: Config, calls: bool, turns: seq<Turn>, i: nat)
    requires i + 1 < |turns|
    requires turns[i].stopFirst || turns[i].stopInWait || (turns[i].stopInTry && calls)
    ensures Run(c, calls, Started(c, false), turns).ended
  {
    hide Grow;
    hide Exhausted;
    var start := Started(c, false);
    assert turns[..i + 1][..i] == turns[..i];
    assert turns[..i + 2][..i + 1] == turns[..i + 1];
    EndedStays(c, calls, start, turns, i + 2);
  }

  /** What has been tried, what has ended the run, and how long it has waited. */
  function Tries(log: seq<Event>): nat
  {
    if log == [] then 0
    else Tries(log[..|log| - 1]) + (if log[|log| - 1].Failed? || log[|log| - 1].Succeeded? then 1 else 0)
  }

  function Endings(log: seq<Event>): nat
  {
    if log == [] then 0
    else Endings(log[..|log| - 1]) + (if log[|log| - 1].GaveUp? || log[|log| - 1].Succeeded? then 1 else 0)
  }

  function WaitedFor(log: seq<Event>): int
  {
    if log == [] then 0
    else WaitedFor(log[..|log| - 1]) + (if log[|log| - 1].Waited? then log[|log| - 1].delay else 0)
  }

  ghost predicate NoNegativeWait(log: seq<Event>)
  {
    forall i :: 0 <= i < |log| && log[i].Waited? ==> log[i].delay >= 0
  }

  lemma {:induction false} Prefixes(a: seq<Event>, b: seq<Event>)
    requires a <= b
    ensures Tries(a) <= Tries(b) && Endings(a) <= Endings(b)
    ensures NoNegativeWait(b) ==> WaitedFor(a) <= WaitedFor(b)
  {
    if |a| == |b| {
      assert a == b;
    } else {
      Prefixes(a, b[..|b| - 1]);
    }
  }

  lemma Appended(log: seq<Event>, e: Event)
    ensures Tries(log + [e]) == Tries(log) + (if e.Failed? || e.Succeeded? then 1 else 0)
    ensures Endings(log + [e]) == Endings(log) + (if e.GaveUp? || e.Succeeded? then 1 else 0)
    ensures WaitedFor(log + [e]) == WaitedFor(log) + (if e.Waited? then e.delay else 0)
  {
    assert (log + [e])[..|log|] == log;
  }

  lemma FailedSnoc(c: Config, calls: bool, n: nat)
    requires n > 0
    ensures var before := FailedAttempts(c, calls, n - 1) + [Waited(Wait(c, n))];
            FailedAttempts(c, calls, n) == if calls then before + [Failed(n)] else before
  {
    hide Wait;
    var before := FailedAttempts(c, calls, n - 1) + [Waited(Wait(c, n))];
    assert before + [] == before;
  }

  lemma NothingCounted(c: Config, calls: bool)
    ensures FailedAttempts(c, calls, 0) == [] && Tries([]) == 0 && Endings([]) == 0 && WaitedFor([]) == TotalWait(c, 0)
  {
  }

  lemma {:induction false} FailuresCounted(c: Config, calls: bool, n: nat)
    ensures var log := FailedAttempts(c, calls, n);
            Tries(log) == (if calls then n else 0) && Endings(log) == 0 && WaitedFor(log) == TotalWait(c, n)
  {
    hide Wait;
    hide FailedAttempts;
    hide Tries;
    hide Endings;
    hide WaitedFor;
    if n == 0 {
      NothingCounted(c, calls);
    } else {
      FailuresCounted(c, calls, n - 1);
      FailedSnoc(c, calls, n);
      var before := FailedAttempts(c, calls, n - 1);
      Appended(before, Waited(Wait(c, n)));
      Appended(before + [Waited(Wait(c, n))], Failed(n));
    }
  }

  /** The number of waits in a run that nobody stops. */
  function WaitsOf(c: Config, calls: bool, turns: seq<Turn>): nat
  {
    var n := if calls then Fruitless(turns) else |turns|;
    if c.maxAttempts > 0 && n >= c.maxAttempts && |turns| > c.maxAttempts then c.maxAttempts
    else if n < |turns| then n + 1
    else n
  }

  /**
   Without Stop a run has ended exactly if it has succeeded or given up, which it does only once, and with a
   maximum it must.
   */
  lemma EndsExactlyOnce(c: Config, calls: bool, turns: seq<Turn>)
    requires NoStop(turns)
    ensures var l := Run(c, calls, Started(c, false), turns);
            && Endings(l.log) == (if l.ended then 1 else 0)
            && (c.maxAttempts > 0 && |turns| > c.maxAttempts ==> l.ended)
            && (c.maxAttempts > 0 ==> Tries(l.log) <= c.maxAttempts)
            && WaitedFor(l.log) == TotalWait(c, WaitsOf(c, calls, turns))
  {
    RunFollowsCourse(c, calls, turns);
    hide Run;
    hide NoStop;
    CourseCounted(c, calls, turns);
    hide Course;
    hide WaitsOf;
  }

  lemma CourseCounted(c: Config, calls: bool, turns: seq<Turn>)
    ensures var l := Course(c, calls, turns);
            && Endings(l.log) == (if l.ended then 1 else 0)
            && (c.maxAttempts > 0 && |turns| > c.maxAttempts ==> l.ended)
            && (c.maxAttempts > 0 ==> Tries(l.log) <= c.maxAttempts)
            && WaitedFor(l.log) == TotalWait(c, WaitsOf(c, calls, turns))
  {
    hide Grow;
    var n := if calls then Fruitless(turns) else |turns|;
    if c.maxAttempts > 0 && n >= c.maxAttempts && |turns| > c.maxAttempts {
      FailuresCounted(c, calls, c.maxAttempts);
      Appended(FailedAttempts(c, calls, c.maxAttempts), GaveUp);
    } else if n < |turns| {
      SuccessCounted(c, calls, n);
    } else {
      FailuresCounted(c, calls, n);
    }
    hide FailedAttempts;
    hide Tries;
    hide Endings;
    hide WaitedFor;
    hide TotalWait;
    hide Wait;
    hide Fruitless;
  }

  lemma SuccessCounted(c: Config, calls: bool, n: nat)
    requires calls
    ensures var log := FailedAttempts(c, calls, n) + [Waited(Wait(c, n + 1)), Succeeded(n + 1)];
            Tries(log) == n + 1 && Endings(log) == 1 && WaitedFor(log) == TotalWait(c, n + 1)
  {
    hide Wait;
    hide FailedAttempts;
    hide Tries;
    hide Endings;
    hide WaitedFor;
    FailuresCounted(c, calls, n);
    var log := FailedAttempts(c, calls, n);
    Appended(log, Waited(Wait(c, n + 1)));
    Appended(log + [Waited(Wait(c, n + 1))], Succeeded(n + 1));
    assert log + [Waited(Wait(c, n + 1)), Succeeded(n + 1)] == log + [Waited(Wait(c, n + 1))] + [Succeeded(n + 1)];
  }

  lemma {:induction false} WaitsAreNatural(c: Config, calls: bool, turns: seq<Turn>)
    requires c.multiple >= 0.0 && 0 <= c.initialDelay && 0 <= c.maxDelay
    ensures var l := Run(c, calls, Started(c, false), turns); l.delay >= 0 && NoNegativeWait(l.log)
  {
    hide Grow;
    hide Exhausted;
    if turns != [] {
      WaitsAreNatural(c, calls, turns[..|turns| - 1]);
      GrowsFromNatural(c, Run(c, calls, Started(c, false), turns[..|turns| - 1]).delay);
    }
  }

  /**
   Whatever Stop does, a run ends at most once and tries at most the maximum number of times; with a
   multiplier of at least one it never waits longer than that many caps.
   */
  lemma RunIsBounded(c: Config, calls: bool, turns: seq<Turn>)
    requires c.multiple >= 1.0 && 0 <= c.initialDelay <= c.maxDelay
    ensures var l := Run(c, calls, Started(c, false), turns);
            && Endings(l.log) <= 1
            && (c.maxAttempts > 0 ==> Tries(l.log) <= c.maxAttempts && WaitedFor(l.log) <= c.maxAttempts * c.maxDelay)
  {
    StopOnlyCutsShort(c, calls, turns);
    EndsExactlyOnce(c, calls, Unstopped(turns));
    WaitsAreNatural(c, calls, Unstopped(turns));
    Prefixes(Run(c, calls, Started(c, false), turns).log, Run(c, calls, Started(c, false), Unstopped(turns)).log);
    var n := WaitsOf(c, calls, Unstopped(turns));
    TotalIsWithinCaps(c, n);
    if c.maxAttempts > 0 {
      MoreCaps(n, c.maxAttempts, c.maxDelay);
    }
    hide Run;
    hide NoNegativeWait;
    hide Tries;
    hide Endings;
    hide WaitedFor;
    hide TotalWait;
  }

  /**
   Stop cancels the manager for good. No loop started after it ever waits or tries anything, whatever happens,
   exactly if the first delay is positive: it returns from its first wait, and the manager stays active.
   */
  lemma RestartNeverTries(c: Config, calls: bool)
    ensures (forall turns: seq<Turn> :: Run(c, calls, Started(c, true), turns).log == []) <==> c.initialDelay > 0
    ensures c.initialDelay > 0 ==>
              forall turns: seq<Turn> :: turns != [] && !turns[0].stopFirst && !turns[0].stopInWait ==>
                Run(c, calls, Started(c, true), turns) == Loop(1, true, true, c.initialDelay, true, [])
  {
    if c.initialDelay > 0 {
      forall turns: seq<Turn>
        ensures Run(c, calls, Started(c, true), turns).log == []
        ensures turns != [] && !turns[0].stopFirst && !turns[0].stopInWait ==>
                  Run(c, calls, Started(c, true), turns) == Loop(1, true, true, c.initialDelay, true, [])
      {
        if turns != [] {
          FirstTurn(c, calls, turns);
          EndedStays(c, calls, Started(c, true), turns, 1);
        }
      }
    } else {
      var t := Turn(false, false, true, false, true);
      FirstTurn(c, calls, [t]);
      assert [t][..1] == [t];
      assert Run(c, calls, Started(c, true), [t]).log != [];
    }
    hide Run;
  }

  lemma FirstTurn(c: Config, calls: bool, turns: seq<Turn>)
    requires turns != []
    ensures Run(c, calls, Started(c, true), turns[..1]) == Turned(c, calls, Started(c, true), turns[0])
  {
    assert turns[..1][..0] == [];
  }
}
