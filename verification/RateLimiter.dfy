/**
 The sliding-window limiter of signaling-server/handlers/websocket.go (checkRateLimit): a list of
 accepted call times per key, compacted in place on every call. Times are in nanoseconds.
 */
module RateLimiter {

  const WINDOW := 60_000_000_000
  const MAX_TOKENS_PER_MINUTE := 10

  /** The times after lo, in order. */
  function After(ts: seq<int>, lo: int): (r: seq<int>)
    ensures |r| <= |ts|
  {
    if ts == [] then []
    else
      var before := After(ts[..|ts| - 1], lo);
      if ts[|ts| - 1] > lo then before + [ts[|ts| - 1]] else before
  }

  datatype Checked = Checked(timestamps: seq<int>, ok: bool)

  function Check(timestamps: seq<int>, now: int): Checked
  {
    var filtered := After(timestamps, now - WINDOW);
    if |filtered| >= MAX_TOKENS_PER_MINUTE then Checked(filtered, false) else Checked(filtered + [now], true)
  }

  class RateLimitEntry {
    /** the backing array of the slice, and the slice's length */
    const buf: array<int>
    var len: nat

    ghost predicate Valid()
      reads this
    {
      buf.Length == MAX_TOKENS_PER_MINUTE && len <= buf.Length
    }

    function Timestamps(): seq<int>
      reads this, buf
      requires Valid()
    {
      buf[..len]
    }

    constructor ()
      ensures Valid() && fresh(buf) && Timestamps() == []
    {
      buf := new int[MAX_TOKENS_PER_MINUTE];
      len := 0;
    }

    method CheckRateLimit(now: int) returns (ok: bool)
      requires Valid()
      modifies this`len, buf
      ensures Valid() && Checked(Timestamps(), ok) == Check(old(Timestamps()), now)
    {
      Compact(now - WINDOW);
      if len >= MAX_TOKENS_PER_MINUTE {
        return false;
      }
      buf[len] := now;
      len := len + 1;
      return true;
    }

    /** Keeps the times after windowStart, moving them to the front of the same array. */
    method Compact(windowStart: int)
      requires Valid()
      modifies this`len, buf
      ensures Valid() && Timestamps() == After(old(Timestamps()), windowStart)
    {
      ghost var was := Timestamps();
      var kept := 0;
      for i := 0 to len
        invariant len == |was| && kept <= i
        invariant buf[..kept] == After(was[..i], windowStart)
        invariant buf[i..len] == was[i..]
      {
        assert was[..i + 1][..i] == was[..i];
        assert buf[i] == buf[i..len][0] == was[i];
        if buf[i] > windowStart {
          buf[kept] := buf[i];
          kept := kept + 1;
        }
        assert buf[i + 1..len] == was[i + 1..];
      }
      assert was[..len] == was;
      len := kept;
    }
  }

  // ---- any sequence of calls on one key

  /** The limiter's list and the accepted times, after calls at these times. */
  datatype History = History(timestamps: seq<int>, accepted: seq<int>)

  function Calls(times: seq<int>): History
  {
    if times == [] then History([], [])
    else
      var n := |times| - 1;
      Called(Calls(times[..n]), times[n])
  }

  function Called(h: History, now: int): History
  {
    var r := Check(h.timestamps, now);
    History(r.timestamps, if r.ok then h.accepted + [now] else h.accepted)
  }

  lemma CallsSnoc(times: seq<int>, now: int)
    ensures Calls(times + [now]) == Called(Calls(times), now)
  {
    assert (times + [now])[..|times|] == times;
  }

  ghost predicate Sorted(ts: seq<int>)
  {
    forall i, j :: 0 <= i < j < |ts| ==> ts[i] <= ts[j]
  }

  lemma {:induction false} AfterTwice(ts: seq<int>, lo: int, hi: int)
    requires lo <= hi
    ensures After(After(ts, lo), hi) == After(ts, hi)
  {
    if ts != [] {
      var n := |ts| - 1;
      AfterTwice(ts[..n], lo, hi);
      var before := After(ts[..n], lo);
      assert (before + [ts[n]])[..|before|] == before;
    }
  }

  lemma AfterSnoc(ts: seq<int>, t: int, lo: int)
    ensures After(ts + [t], lo) == After(ts, lo) + (if t > lo then [t] else [])
  {
    assert (ts + [t])[..|ts|] == ts;
  }

  lemma SortedInit(ts: seq<int>)
    requires Sorted(ts) && ts != []
    ensures Sorted(ts[..|ts| - 1]) && (|ts| > 1 ==> ts[|ts| - 2] <= ts[|ts| - 1])
  {
  }

  lemma SortedSnoc(ts: seq<int>, t: int)
    requires Sorted(ts) && (ts != [] ==> ts[|ts| - 1] <= t)
    ensures Sorted(ts + [t])
  {
  }

  /** Dropping expired times has lost nothing: the list holds the accepted times of the window that ends now. */
  ghost predicate Windowed(h: History, now: int)
  {
    && h.timestamps == After(h.accepted, now - WINDOW)
    && Sorted(h.accepted) && (h.accepted != [] ==> h.accepted[|h.accepted| - 1] <= now)
  }

  lemma WindowStep(h: History, prev: int, now: int)
    requires prev <= now && Windowed(h, prev)
    ensures Windowed(Called(h, now), now)
  {
    AfterTwice(h.accepted, prev - WINDOW, now - WINDOW);
    AfterSnoc(h.accepted, now, now - WINDOW);
    SortedSnoc(h.accepted, now);
  }

  lemma {:induction false} ListIsWindow(times: seq<int>)
    requires times != [] && Sorted(times)
    ensures Windowed(Calls(times), times[|times| - 1])
  {
    SortedInit(times);
    var n := |times| - 1;
    assert Windowed(Calls([]), times[n]);
    hide Windowed;
    hide Called;
    hide Sorted;
    if n > 0 {
      ListIsWindow(times[..n]);
      WindowStep(Calls(times[..n]), times[n - 1], times[n]);
    } else {
      assert times[..n] == [];
      WindowStep(Calls([]), times[n], times[n]);
    }
  }

  lemma AcceptedByWindow(h: History, prev: int, now: int)
    requires prev <= now && Windowed(h, prev)
    ensures Called(h, now).accepted
            == if |After(h.accepted, now - WINDOW)| < MAX_TOKENS_PER_MINUTE then h.accepted + [now] else h.accepted
  {
    AfterTwice(h.accepted, prev - WINDOW, now - WINDOW);
  }

  /**
   A call is accepted exactly when fewer than ten of all the calls accepted before it fall into
   the 60 seconds that end with it.
   */
  lemma AcceptedExactly(times: seq<int>, now: int)
    requires Sorted(times + [now])
    ensures var past := Calls(times).accepted;
            Calls(times + [now]).accepted
            == if |After(past, now - 60_000_000_000)| < 10 then past + [now] else past
  {
    assert (times + [now])[..|times|] == times;
    SortedInit(times + [now]);
    assert times == [] ==> Windowed(Calls(times), now);
    hide Windowed;
    hide Called;
    hide Sorted;
    hide After;
    if times != [] {
      ListIsWindow(times);
      AcceptedByWindow(Calls(times), times[|times| - 1], now);
    } else {
      AcceptedByWindow(Calls(times), now, now);
    }
  }

  /** In a sorted list the times after lo come last. */
  lemma {:induction false} AfterComesLast(ts: seq<int>, lo: int)
    requires Sorted(ts)
    ensures forall i :: 0 <= i < |ts| ==> (ts[i] > lo <==> i >= |ts| - |After(ts, lo)|)
  {
    if ts != [] {
      var n := |ts| - 1;
      SortedInit(ts);
      AfterComesLast(ts[..n], lo);
      if n > 0 {
        assert ts[..n][n - 1] == ts[n - 1] <= ts[n];
      }
      assert forall i :: 0 <= i < n ==> ts[..n][i] == ts[i];
      hide Sorted;
    }
  }

  /** Ten accepted calls further on, a full window has passed. */
  ghost predicate Spaced(ts: seq<int>)
  {
    forall i :: 0 <= i && i + MAX_TOKENS_PER_MINUTE < |ts| ==> GapAt(ts, i)
  }

  ghost predicate GapAt(ts: seq<int>, i: nat)
    requires i + MAX_TOKENS_PER_MINUTE < |ts|
  {
    ts[i + MAX_TOKENS_PER_MINUTE] >= ts[i] + WINDOW
  }

  lemma {:induction false} AcceptedAreSpaced(times: seq<int>)
    requires Sorted(times)
    ensures Spaced(Calls(times).accepted)
  {
    if times != [] {
      var n := |times| - 1;
      var now := times[n];
      AcceptedAreSpaced(times[..n]);
      assert times[..n] + [now] == times;
      AcceptedExactly(times[..n], now);
      var past := Calls(times[..n]).accepted;
      if n > 0 {
        ListIsWindow(times[..n]);
        AcceptedKeepsSpacing(past, now);
      }
    }
  }

  lemma AcceptedKeepsSpacing(past: seq<int>, now: int)
    requires Sorted(past) && Spaced(past)
    ensures |After(past, now - WINDOW)| < MAX_TOKENS_PER_MINUTE ==> Spaced(past + [now])
  {
    AfterComesLast(past, now - WINDOW);
    if |After(past, now - WINDOW)| < MAX_TOKENS_PER_MINUTE {
      forall i | 0 <= i && i + MAX_TOKENS_PER_MINUTE < |past| + 1
        ensures GapAt(past + [now], i)
      {
        assert i + MAX_TOKENS_PER_MINUTE < |past| ==> GapAt(past, i);
      }
    }
  }

  function CountIn(ts: seq<int>, lo: int, hi: int): nat
  {
    if ts == [] then 0
    else CountIn(ts[..|ts| - 1], lo, hi) + (if lo < ts[|ts| - 1] <= hi then 1 else 0)
  }

  lemma CountSnoc(ts: seq<int>, t: int, lo: int, hi: int)
    ensures CountIn(ts + [t], lo, hi) == CountIn(ts, lo, hi) + (if lo < t <= hi then 1 else 0)
  {
    assert (ts + [t])[..|ts|] == ts;
  }

  lemma SpacedInit(ts: seq<int>)
    requires Spaced(ts) && ts != []
    ensures Spaced(ts[..|ts| - 1])
  {
    var init := ts[..|ts| - 1];
    forall i | 0 <= i && i + MAX_TOKENS_PER_MINUTE < |init|
      ensures GapAt(init, i)
    {
      assert GapAt(ts, i);
    }
  }

  lemma {:induction false} CountSpaced(ts: seq<int>, lo: int, hi: int)
    requires Sorted(ts) && Spaced(ts) && hi <= lo + WINDOW
    ensures CountIn(ts, lo, hi) <= MAX_TOKENS_PER_MINUTE
  {
    if ts != [] {
      var n := |ts| - 1;
      var k := |ts| - |After(ts, lo)|;
      assert k + MAX_TOKENS_PER_MINUTE < |ts| ==> GapAt(ts, k);
      if ts[n] <= hi {
        CountIsAfter(ts, lo, hi);
        AfterComesLast(ts, lo);
      } else {
        SpacedInit(ts);
        CountSpaced(ts[..n], lo, hi);
      }
    }
  }

  lemma {:induction false} CountIsAfter(ts: seq<int>, lo: int, hi: int)
    requires forall i :: 0 <= i < |ts| ==> ts[i] <= hi
    ensures CountIn(ts, lo, hi) == |After(ts, lo)|
  {
    if ts != [] {
      CountIsAfter(ts[..|ts| - 1], lo, hi);
    }
  }

  /**
   However the calls fall, no window of 60 seconds, closed on the right or on the left, holds more than ten
   accepted ones.
   */
  lemma AtMostTenPerWindow(times: seq<int>, start: int)
    requires Sorted(times)
    ensures CountIn(Calls(times).accepted, start, start + 60_000_000_000) <= 10
    ensures CountIn(Calls(times).accepted, start - 1, start + 60_000_000_000 - 1) <= 10
  {
    if times != [] {
      ListIsWindow(times);
      AcceptedAreSpaced(times);
      CountSpaced(Calls(times).accepted, start, start + WINDOW);
      CountSpaced(Calls(times).accepted, start - 1, start + WINDOW - 1);
    }
  }
}
