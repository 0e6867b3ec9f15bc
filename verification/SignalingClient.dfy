/** The signaling client's first connection (internal/signaling/client.go): attempts with doubling delays. */
module SignalingClient {
  import opened Backoff

  const BASE_DELAY := 1 * SECOND
  const MAX_DELAY := 30 * SECOND

  /** How it ended, after which attempt; NeverTried is the error after a loop without turns. */
  datatype Outcome = Connected(attempt: nat) | Exhausted(attempt: nat) | Cancelled(attempt: nat) | NeverTried

  /** The first n attempts fail, and none of the waits after the first k of them is cancelled. */
  ghost predicate InVain(connects: nat -> bool, cancels: nat -> bool, n: nat, k: nat)
  {
    (forall i: nat :: 1 <= i <= n ==> !connects(i)) && (forall i: nat :: 1 <= i <= k ==> !cancels(i))
  }

  function Doubled(i: nat): nat
  {
    Min(MAX_DELAY, Scaled(BASE_DELAY, 2, i))
  }

  lemma DoubledOnce(i: nat)
    ensures Doubled(0) == BASE_DELAY && Doubled(i + 1) == Min(MAX_DELAY, Doubled(i) * 2)
  {
    CapTwice(MAX_DELAY, Scaled(BASE_DELAY, 2, i), 2);
  }

  /** The n delays after the first n attempts: 1, 2, 4, ... seconds, at most 30 each. */
  function Delays(n: nat): (ds: seq<nat>)
    ensures |ds| == n
  {
    seq(n, i requires 0 <= i < n => Doubled(i))
  }

  /** `connects` and `cancels` say what the i-th attempt, and the context during the wait after it, will do. */
  method ConnectWithRetry(maxAttempts: int, connects: nat -> bool, cancels: nat -> bool)
    returns (r: Outcome, waits: seq<int>)
    ensures r.NeverTried? <==> maxAttempts < 1
    ensures r.NeverTried? ==> waits == []
    ensures r.Connected? ==>
              1 <= r.attempt <= maxAttempts && connects(r.attempt)
              && InVain(connects, cancels, r.attempt - 1, r.attempt - 1) && waits == Delays(r.attempt - 1)
    ensures r.Exhausted? ==>
              && r.attempt == maxAttempts && InVain(connects, cancels, r.attempt, r.attempt - 1)
              && waits == Delays(r.attempt - 1)
    ensures r.Cancelled? ==>
              1 <= r.attempt < maxAttempts && cancels(r.attempt)
              && InVain(connects, cancels, r.attempt, r.attempt - 1) && waits == Delays(r.attempt - 1)
  {
    hide Doubled;
    DoubledOnce(0);
    waits := [];
    var delay := BASE_DELAY;
    var attempt: nat := 1;
    while attempt <= maxAttempts
      invariant 1 <= attempt && (attempt > maxAttempts ==> maxAttempts < 1 && attempt == 1)
      invariant InVain(connects, cancels, attempt - 1, attempt - 1)
      invariant delay == Doubled(attempt - 1)
      invariant waits == Delays(attempt - 1)
    {
      if connects(attempt) {
        return Connected(attempt), waits;
      }
      if attempt == maxAttempts {
        return Exhausted(attempt), waits;
      }
      if cancels(attempt) {
        return Cancelled(attempt), waits;
      }
      waits := waits + [delay];
      DoubledOnce(attempt - 1);
      delay := delay * 2;
      if delay > MAX_DELAY {
        delay := MAX_DELAY;
      }
      attempt := attempt + 1;
    }
    return NeverTried, waits;
  }

  function Sum(ds: seq<int>): int
  {
    if ds == [] then 0 else Sum(ds[..|ds| - 1]) + ds[|ds| - 1]
  }

  /** n waits take at most n times the cap, and less than the doubled last uncapped one. */
  lemma {:induction false} DelaysAreBounded(n: nat)
    ensures Sum(Delays(n)) <= n * (30 * SECOND) && Sum(Delays(n)) <= Scaled(SECOND, 2, n) - SECOND
  {
    if n > 0 {
      DelaysAreBounded(n - 1);
      OneMoreDelay(n - 1);
      assert Doubled(n - 1) <= MAX_DELAY && Doubled(n - 1) <= Scaled(BASE_DELAY, 2, n - 1);
      hide Doubled;
      hide Delays;
      hide Sum;
    }
  }

  lemma OneMoreDelay(n: nat)
    ensures Sum(Delays(n + 1)) == Sum(Delays(n)) + Doubled(n)
  {
    hide Doubled;
    assert Delays(n + 1)[..n] == Delays(n);
  }

  /** They are the delays of the reconnection loop from one second on, with a cap of 30 and a multiplier of two. */
  lemma SameAsReconnect(n: nat, i: nat, maxAttempts: int)
    requires i < n
    ensures Delays(n)[i] == CalculateDelay(Config(SECOND, 30 * SECOND, maxAttempts, 2.0), i + 1)
    ensures Delays(n)[i] == Wait(Config(SECOND, 30 * SECOND, maxAttempts, 2.0), i + 1)
  {
    var c := Config(BASE_DELAY, MAX_DELAY, maxAttempts, 2.0);
    IntegerDelay(c, 2, i + 1);
    WaitIsCappedPower(c, 2, i + 1);
  }
}
