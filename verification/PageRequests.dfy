/**
 The page's table of requests under way (web/webrtc-client.js), whose IDs come from its callers. Promises are
 numbered in the order of the calls of proxyRequest; what an ID left out gets is an ID like any other.
 */
module PageRequests {
  import opened Bytes
  import opened ServiceWorker

  /**
   Whether there are channels, the number of promises so far, the Map from IDs to the promises' functions, the timers
   that have not fired with the ID each one looks for, and, as history, the calls of each promise's functions.
   */
  datatype Page = Page(channels: bool, next: nat, pending: map<string, nat>, armed: map<nat, string>,
                       calls: map<nat, seq<Fate>>)

  const LOADED := Page(false, 0, map[], map[], map[])

  datatype Action =
    | Opens
    | Proxies(id: string, throws: bool)
    | Completes(id: string, reply: Reply)
    | Fires(promise: nat)
    | Closes

  function Call(calls: map<nat, seq<Fate>>, p: nat, fate: Fate): map<nat, seq<Fate>>
  {
    calls[p := (if p in calls then calls[p] else []) + [fate]]
  }

  function CallAll(calls: map<nat, seq<Fate>>, ps: set<nat>, fate: Fate): map<nat, seq<Fate>>
  {
    map p | p in calls.Keys + ps :: if p in ps then Call(calls, p, fate)[p] else calls[p]
  }

  /**
   `throws` says that dc.send throws for one of the frames. That rejects the promise, but the entry has already been
   made, and the timer is not set.
   */
  function Proxy(g: Page, id: string, throws: bool): Page
  {
    var p := g.next;
    if !g.channels then g.(next := p + 1, calls := g.calls[p := [Rejected(NotConnected)]])
    else if throws then g.(next := p + 1, calls := g.calls[p := [Rejected(SendFailed)]], pending := g.pending[id := p])
    else g.(next := p + 1, calls := g.calls[p := []], pending := g.pending[id := p], armed := g.armed[p := id])
  }

  /** A timer rejects its own promise, but removes whatever is pending under the ID. */
  function Take(g: Page, a: Action): Page
  {
    match a
    case Opens => g.(channels := true)
    case Proxies(id, throws) => Proxy(g, id, throws)
    case Completes(id, reply) =>
      if id in g.pending then
        g.(pending := g.pending - {id}, calls := Call(g.calls, g.pending[id], Resolved(reply)))
      else g
    case Fires(p) =>
      if p !in g.armed then g
      else if g.armed[p] in g.pending then
        g.(armed := g.armed - {p}, pending := g.pending - {g.armed[p]}, calls := Call(g.calls, p, Rejected(TimedOut)))
      else g.(armed := g.armed - {p})
    case Closes =>
      g.(channels := false, pending := map[], calls := CallAll(g.calls, g.pending.Values, Rejected(TunnelClosed)))
  }

  function TakeAll(g: Page, run: seq<Action>): Page
  {
    if run == [] then g else Take(TakeAll(g, run[..|run| - 1]), run[|run| - 1])
  }

  class BTunnelRequests {
    var channels: bool
    var next: nat
    var pendingRequests: map<string, nat>
    var armed: map<nat, string>
    var calls: map<nat, seq<Fate>>

    function State(): Page
      reads this
    {
      Page(channels, next, pendingRequests, armed, calls)
    }

    /** Every promise is pending under at most one ID. */
    ghost predicate Valid()
      reads this
    {
      && (forall a :: a in pendingRequests ==> pendingRequests[a] < next)
      && (forall a, b :: a in pendingRequests && b in pendingRequests && a != b ==>
            pendingRequests[a] != pendingRequests[b])
    }

    constructor ()
      ensures Valid() && State() == LOADED
    {
      channels, next, pendingRequests, armed, calls := false, 0, map[], map[], map[];
    }

    method ProxyRequest(id: string, throws: bool) returns (promise: nat, sent: bool)
      requires Valid()
      modifies this
      ensures Valid() && State() == Take(old(State()), Proxies(id, throws))
      ensures promise == old(next) && sent == (old(channels) && !throws)
    {
      promise := next;
      next := next + 1;
      if !channels {
        calls := calls[promise := [Rejected(NotConnected)]];
        return promise, false;
      }
      pendingRequests := pendingRequests[id := promise];
      if throws {
        calls := calls[promise := [Rejected(SendFailed)]];
        return promise, false;
      }
      calls := calls[promise := []];
      armed := armed[promise := id];
      return promise, true;
    }

    method ProcessCompleteMessage(id: string, reply: Reply) returns (taken: bool)
      requires Valid()
      modifies this
      ensures Valid() && State() == Take(old(State()), Completes(id, reply)) && taken == (id in old(pendingRequests))
    {
      if id !in pendingRequests {
        return false;
      }
      var promise := pendingRequests[id];
      pendingRequests := pendingRequests - {id};
      calls := Call(calls, promise, Resolved(reply));
      return true;
    }

    method OnTimer(promise: nat)
      requires Valid() && promise in armed
      modifies this
      ensures Valid() && State() == Take(old(State()), Fires(promise))
    {
      var id := armed[promise];
      armed := armed - {promise};
      if id in pendingRequests {
        pendingRequests := pendingRequests - {id};
        calls := Call(calls, promise, Rejected(TimedOut));
      }
    }

    method Close()
      requires Valid()
      modifies this
      ensures Valid() && State() == Take(old(State()), Closes)
    {
      hide Call;
      hide CallAll;
      channels := false;
      var todo := pendingRequests.Keys;
      ghost var was := calls;
      ghost var done: set<nat> := {};
      CallNone(was, Rejected(TunnelClosed));
      while todo != {}
        invariant todo <= pendingRequests.Keys && pendingRequests == old(pendingRequests)
        invariant State() == old(State()).(channels := false, calls := CallAll(was, done, Rejected(TunnelClosed)))
        invariant forall id :: id in pendingRequests ==> (id in todo <==> pendingRequests[id] !in done)
        invariant done <= pendingRequests.Values
        decreases |todo|
      {
        var id :| id in todo;
        CallOneMore(was, done, pendingRequests[id], Rejected(TunnelClosed));
        calls := Call(calls, pendingRequests[id], Rejected(TunnelClosed));
        done := done + {pendingRequests[id]};
        todo := todo - {id};
      }
      assert done == pendingRequests.Values;
      pendingRequests := map[];
    }
  }

  lemma CallNone(calls: map<nat, seq<Fate>>, fate: Fate)
    ensures CallAll(calls, {}, fate) == calls
  {
  }

  lemma CallOneMore(calls: map<nat, seq<Fate>>, ps: set<nat>, p: nat, fate: Fate)
    requires p !in ps
    ensures CallAll(calls, ps + {p}, fate) == Call(CallAll(calls, ps, fate), p, fate)
  {
  }

  // ---- exactly once, for IDs that are not reused while a timer still looks for them

  /** No timer looks for this ID. */
  ghost predicate Unused(g: Page, id: string)
  {
    forall p :: p in g.armed ==> g.armed[p] != id
  }

  /** The promise p is where its ID leads. */
  ghost predicate Waiting(g: Page, p: nat)
  {
    p in g.armed && g.armed[p] in g.pending && g.pending[g.armed[p]] == p
  }

  /** A promise that was made has been called once, or not yet and waits. */
  ghost predicate Accounts(g: Page, p: nat)
  {
    && (p in g.calls <==> p < g.next) && (p in g.armed ==> p < g.next)
    && (p in g.calls ==> |g.calls[p]| == if Waiting(g, p) then 0 else 1)
  }

  ghost predicate LeadsBack(g: Page, id: string)
  {
    id in g.pending ==> g.pending[id] in g.armed && g.armed[g.pending[id]] == id
  }

  ghost predicate Apart(armed: map<nat, string>)
  {
    forall p, q :: p in armed && q in armed && armed[p] == armed[q] ==> p == q
  }

  ghost predicate OK(g: Page)
  {
    (forall p: nat :: Accounts(g, p)) && (forall id :: LeadsBack(g, id)) && Apart(g.armed)
  }

  ghost predicate Careful(g: Page, a: Action)
  {
    a.Proxies? && g.channels ==> Unused(g, a.id) && !a.throws
  }

  ghost predicate CarefulRun(g: Page, run: seq<Action>)
  {
    run == [] || (CarefulRun(g, run[..|run| - 1]) && Careful(TakeAll(g, run[..|run| - 1]), run[|run| - 1]))
  }

  lemma ProxyKeepsOK(g: Page, id: string, throws: bool)
    requires OK(g)
    ensures OK(Proxy(g, id, throws)) <==> (g.channels ==> Unused(g, id) && !throws)
  {
    var g' := Proxy(g, id, throws);
    assert Accounts(g, g.next);
    if g.channels && throws {
      assert !LeadsBack(g', id);
    } else if g.channels && !Unused(g, id) {
      var p :| p in g.armed && g.armed[p] == id;
      assert Accounts(g, p);
      assert g'.armed[p] == g'.armed[g.next];
    } else {
      ProxyApart(g, id);
      forall p: nat
        ensures Accounts(g', p)
      {
        assert Accounts(g, p);
      }
      forall k
        ensures LeadsBack(g', k)
      {
        assert LeadsBack(g, k);
      }
    }
  }

  lemma ProxyApart(g: Page, id: string)
    requires Apart(g.armed) && (g.channels ==> Unused(g, id))
    ensures Apart(Proxy(g, id, false).armed)
  {
  }

  lemma CompletesKeepsOK(g: Page, id: string, reply: Reply)
    requires OK(g)
    ensures OK(Take(g, Completes(id, reply)))
  {
    var g' := Take(g, Completes(id, reply));
    assert LeadsBack(g, id);
    forall p: nat
      ensures Accounts(g', p)
    {
      assert Accounts(g, p);
    }
    forall k
      ensures LeadsBack(g', k)
    {
      assert LeadsBack(g, k);
    }
  }

  lemma FiresKeepsOK(g: Page, q: nat)
    requires OK(g)
    ensures OK(Take(g, Fires(q)))
  {
    var g' := Take(g, Fires(q));
    assert Accounts(g, q);
    assert q in g.armed ==> LeadsBack(g, g.armed[q]);
    forall p: nat
      ensures Accounts(g', p)
    {
      assert Accounts(g, p);
    }
    forall k
      ensures LeadsBack(g', k)
    {
      assert LeadsBack(g, k);
    }
    assert Apart(g'.armed);
  }

  lemma ClosesKeepsOK(g: Page)
    requires OK(g)
    ensures OK(Take(g, Closes))
  {
    var g' := Take(g, Closes);
    forall p: nat
      ensures Accounts(g', p)
    {
      assert Accounts(g, p);
      if p in g.pending.Values {
        var id :| id in g.pending && g.pending[id] == p;
        assert LeadsBack(g, id);
      }
    }
  }

  /** A step keeps the table in order exactly if a request is sent, and no timer still looks for its ID. */
  lemma TakeKeepsOK(g: Page, a: Action)
    requires OK(g)
    ensures OK(Take(g, a)) <==> Careful(g, a)
  {
    match a
    case Opens =>
      forall p: nat
        ensures Accounts(Take(g, a), p)
      {
        assert Accounts(g, p);
      }
      forall k
        ensures LeadsBack(Take(g, a), k)
      {
        assert LeadsBack(g, k);
      }
    case Proxies(id, throws) => ProxyKeepsOK(g, id, throws);
    case Completes(id, reply) => CompletesKeepsOK(g, id, reply);
    case Fires(p) => FiresKeepsOK(g, p);
    case Closes => ClosesKeepsOK(g);
  }

  lemma {:induction false} RunKeepsOK(g: Page, run: seq<Action>)
    requires OK(g) && CarefulRun(g, run)
    ensures OK(TakeAll(g, run))
  {
    hide OK;
    hide Take;
    hide Careful;
    if run != [] {
      RunKeepsOK(g, run[..|run| - 1]);
      TakeKeepsOK(TakeAll(g, run[..|run| - 1]), run[|run| - 1]);
    }
  }

  /** Then no promise is ever settled twice, and one that is not settled waits under a timer that has not fired. */
  lemma CalledAtMostOnce(run: seq<Action>, p: nat)
    requires CarefulRun(LOADED, run) && p < TakeAll(LOADED, run).next
    ensures var g := TakeAll(LOADED, run);
            p in g.calls && |g.calls[p]| <= 1 && (g.calls[p] == [] <==> Waiting(g, p))
  {
    RunKeepsOK(LOADED, run);
    assert Accounts(TakeAll(LOADED, run), p);
    hide TakeAll;
  }

  /** The first action that decides the promise p under the given ID. */
  function Fated(run: seq<Action>, p: nat, id: string): Option<Fate>
  {
    if run == [] then None
    else
      var before, a := Fated(run[..|run| - 1], p, id), run[|run| - 1];
      if before.Some? then before
      else
        match a
        case Completes(k, reply) => if k == id then Some(Resolved(reply)) else None
        case Fires(q) => if q == p then Some(Rejected(TimedOut)) else None
        case Closes => Some(Rejected(TunnelClosed))
        case _ => None
  }

  lemma FateNow(g: Page, a: Action, p: nat)
    requires OK(g) && Careful(g, a) && p < g.next
    ensures var g' := Take(g, a);
            p in g.calls && p in g'.calls
            && (!Waiting(g, p) ==> g'.calls[p] == g.calls[p])
            && (Waiting(g, p) ==>
                  match Fated([a], p, g.armed[p])
                  case None => Waiting(g', p) && g'.armed[p] == g.armed[p] && g'.calls[p] == []
                  case Some(fate) => !Waiting(g', p) && g'.calls[p] == [fate])
  {
    assert [a][..0] == [] && Fated([], p, if p in g.armed then g.armed[p] else "") == None;
    assert Accounts(g, p);
    TakeKeepsOK(g, a);
    assert Accounts(Take(g, a), p);
    assert a.Completes? ==> LeadsBack(g, a.id);
    assert a.Fires? ==> Accounts(g, a.promise);
  }

  /**
   The fate of a waiting promise in any run from any state that is in order: the first of a message under its
   ID, its timer and the closing of the connection, and nothing after that.
   */
  lemma {:induction false} FirstDecidesFate(g: Page, run: seq<Action>, p: nat)
    requires OK(g) && CarefulRun(g, run) && p < g.next && Waiting(g, p)
    ensures var g' := TakeAll(g, run);
            p in g'.calls && p < g'.next
            && match Fated(run, p, g.armed[p])
               case None => Waiting(g', p) && g'.armed[p] == g.armed[p] && g'.calls[p] == []
               case Some(fate) => !Waiting(g', p) && g'.calls[p] == [fate]
  {
    assert Accounts(g, p);
    if run != [] {
      var n := |run| - 1;
      FirstDecidesFate(g, run[..n], p);
      RunKeepsOK(g, run[..n]);
      FateNow(TakeAll(g, run[..n]), run[n], p);
      NextGrows(TakeAll(g, run[..n]), run[n]);
      assert [run[n]][..0] == [] && Fated([], p, g.armed[p]) == None;
    }
    hide OK;
    hide Take;
    hide Careful;
  }

  lemma NextGrows(g: Page, a: Action)
    ensures g.next <= Take(g, a).next
  {
  }

  /** Nothing is left that could settle the promise q. */
  ghost predicate Lost(g: Page, q: nat)
  {
    q < g.next && q !in g.armed && q !in g.pending.Values && q in g.calls && g.calls[q] == []
  }

  lemma LostStays(g: Page, a: Action, q: nat)
    requires Lost(g, q)
    ensures Lost(Take(g, a), q)
  {
  }

  lemma {:induction false} LostForever(g: Page, run: seq<Action>, q: nat)
    requires Lost(g, q)
    ensures Lost(TakeAll(g, run), q)
  {
    hide Lost;
    hide Take;
    if run != [] {
      LostForever(g, run[..|run| - 1], q);
      LostStays(TakeAll(g, run[..|run| - 1]), run[|run| - 1], q);
    }
  }

  /**
   What reuse does: a second request under the ID of a waiting one is removed by the first one's timer, then its
   own reply and its own timer find nothing, and it is never settled, whatever happens afterwards.
   */
  lemma ReuseLosesRequest(g: Page, p: nat, reply: Reply, run: seq<Action>)
    requires OK(g) && g.channels && p < g.next && Waiting(g, p)
    ensures var id := g.armed[p];
            var g' := Take(Take(Take(Take(g, Proxies(id, false)), Fires(p)), Completes(id, reply)), Fires(g.next));
            Lost(TakeAll(g', run), g.next)
  {
    var id := g.armed[p];
    var q := g.next;
    var g1 := Take(g, Proxies(id, false));
    var g2 := Take(g1, Fires(p));
    assert forall k :: k in g.pending ==> LeadsBack(g, k) && Accounts(g, g.pending[k]);
    assert id !in g2.pending && q !in g2.pending.Values && g2.calls[q] == [];
    LostForever(Take(Take(g2, Completes(id, reply)), Fires(q)), run, q);
  }

  /** No timer will ever remove what is pending under this ID. */
  ghost predicate Stale(g: Page, id: string, p: nat)
  {
    id in g.pending && g.pending[id] == p && Unused(g, id)
  }

  lemma ThrowLeavesEntry(g: Page, id: string)
    requires OK(g) && g.channels && Unused(g, id)
    ensures var g' := Take(g, Proxies(id, true));
            Stale(g', id, g.next) && g'.calls[g.next] == [Rejected(SendFailed)]
            && forall reply :: Take(g', Completes(id, reply)).calls[g.next] == [Rejected(SendFailed), Resolved(reply)]
  {
  }

  /**
   The entry of a request that could not be sent stays, though its promise has been rejected, until the ID is used
   again, a message names it, which settles the promise a second time, or the connection is closed.
   */
  lemma {:induction false} StaleStays(g: Page, run: seq<Action>, id: string, p: nat)
    requires Stale(g, id, p) && Closes !in run
    requires forall a :: a in run && (a.Proxies? || a.Completes?) ==> a.id != id
    ensures Stale(TakeAll(g, run), id, p)
  {
    if run != [] {
      var n := |run| - 1;
      StaleStays(g, run[..n], id, p);
      assert run[n] in run;
    }
  }

  // ---- what the actions alone say

  /** The channels have been opened, and the connection has not been closed since. */
  predicate IsOpen(run: seq<Action>)
  {
    run != [] &&
    var a := run[|run| - 1];
    a.Opens? || (IsOpen(run[..|run| - 1]) && !a.Closes?)
  }

  function Requests(run: seq<Action>): nat
  {
    if run == [] then 0 else Requests(run[..|run| - 1]) + (if run[|run| - 1].Proxies? then 1 else 0)
  }

  /** Every call of proxyRequest makes the next promise, and finds channels exactly if they are open. */
  lemma {:induction false} OpenExactly(run: seq<Action>)
    ensures var g := TakeAll(LOADED, run); (g.channels <==> IsOpen(run)) && g.next == Requests(run)
  {
    if run != [] {
      OpenExactly(run[..|run| - 1]);
    }
  }

  /**
   What a request starts with, in every run: without channels it is rejected and nowhere in the table, otherwise it
   is pending under its ID, and waits under a timer unless sending it throws, in which case it is rejected.
   */
  lemma RequestedExactly(run: seq<Action>, id: string, throws: bool)
    ensures var g, g' := TakeAll(LOADED, run), TakeAll(LOADED, run + [Proxies(id, throws)]);
            var p := Requests(run);
            && g'.next == p + 1 && p in g'.calls
            && (forall q :: q != p ==>
                  (q in g'.calls <==> q in g.calls) && (q in g.calls ==> g'.calls[q] == g.calls[q]))
            && if !IsOpen(run) then
                 g'.calls[p] == [Rejected(NotConnected)] && g'.pending == g.pending && g'.armed == g.armed
               else
                 && g'.pending == g.pending[id := p]
                 && (if throws then g'.calls[p] == [Rejected(SendFailed)] && g'.armed == g.armed
                     else g'.calls[p] == [] && g'.armed == g.armed[p := id])
  {
    assert (run + [Proxies(id, throws)])[..|run|] == run;
    OpenExactly(run);
  }
}
