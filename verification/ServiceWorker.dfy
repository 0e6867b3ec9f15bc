/**
 The service worker's table of requests under way (web/sw.js): every request it has issued is settled once,
 by its own reply, its timer or the closing of the tunnel, whichever comes first. The N of an ID sw-req-N stands for
 the ID, 0 for every ID that the worker does not make; ports are numbered.
 */
module ServiceWorker {
  import opened Bytes

  datatype Reply = Reply(status: int, headers: map<string, string>, body: string)

  /** SendFailed is the page's: its executor has thrown while sending. */
  datatype Reason = NotConnected | TunnelClosed | TimedOut | SendFailed

  datatype Fate = Resolved(reply: Reply) | Rejected(reason: Reason)

  /** A call of a promise's resolve or reject. */
  datatype Settlement = Settlement(id: nat, fate: Fate)

  /**
   `reading` holds the requests that have an ID but whose body is still being read, `pending` the keys of the Map,
   in the order of insertion, and `armed` the timers that have not fired. `log` is history.
   */
  datatype Worker = Worker(port: Option<nat>, counter: nat, reading: set<nat>, pending: seq<nat>, armed: set<nat>,
                           log: seq<Settlement>)

  const INSTALLED := Worker(None, 0, {}, [], {}, [])

  datatype Event =
    | InitTunnel(port: nat)
    | Fetch
    | BodyRead(id: nat)
    | Response(port: nat, id: nat, reply: Reply)
    | TimerFires(id: nat)
    | CloseTunnel

  function Without(pending: seq<nat>, id: nat): (rest: seq<nat>)
    ensures forall k :: k in rest <==> k in pending && k != id
    ensures |rest| <= |pending|
  {
    if pending == [] then []
    else
      var n := |pending| - 1;
      Without(pending[..n], id) + (if pending[n] == id then [] else [pending[n]])
  }

  function RejectAll(pending: seq<nat>): seq<Settlement>
  {
    seq(|pending|, i requires 0 <= i < |pending| => Settlement(pending[i], Rejected(TunnelClosed)))
  }

  /** Settles the request if it is pending. */
  function Settle(w: Worker, id: nat, fate: Fate): Worker
  {
    if id in w.pending then w.(pending := Without(w.pending, id), log := w.log + [Settlement(id, fate)]) else w
  }

  function SendTunnelRequest(w: Worker, id: nat): Worker
  {
    if w.port.None? then w.(log := w.log + [Settlement(id, Rejected(NotConnected))])
    else w.(pending := w.pending + [id], armed := w.armed + {id})
  }

  /** An old port still delivers: its handler stays in place when a new port comes. */
  function Step(w: Worker, e: Event): Worker
  {
    match e
    case InitTunnel(port) => w.(port := Some(port))
    case Fetch => if w.port.None? then w else w.(counter := w.counter + 1, reading := w.reading + {w.counter + 1})
    case BodyRead(id) => if id in w.reading then SendTunnelRequest(w.(reading := w.reading - {id}), id) else w
    case Response(_, id, reply) => Settle(w, id, Resolved(reply))
    case TimerFires(id) =>
      if id in w.armed then Settle(w.(armed := w.armed - {id}), id, Rejected(TimedOut)) else w
    case CloseTunnel => w.(port := None, pending := [], log := w.log + RejectAll(w.pending))
  }

  function Run(w: Worker, events: seq<Event>): Worker
  {
    if events == [] then w else Step(Run(w, events[..|events| - 1]), events[|events| - 1])
  }

  class ServiceWorkerScope {
    var tunnelPort: Option<nat>
    var pendingRequests: seq<nat>
    var requestCounter: nat
    var reading: set<nat>
    var armed: set<nat>
    var log: seq<Settlement>

    function State(): Worker
      reads this
    {
      Worker(tunnelPort, requestCounter, reading, pendingRequests, armed, log)
    }

    constructor ()
      ensures State() == INSTALLED
    {
      tunnelPort, pendingRequests, requestCounter, reading, armed, log := None, [], 0, {}, {}, [];
    }

    method OnInitTunnel(port: nat)
      modifies this
      ensures State() == Step(old(State()), InitTunnel(port))
    {
      tunnelPort := Some(port);
    }

    method OnResponse(port: nat, id: nat, reply: Reply)
      modifies this
      ensures State() == Step(old(State()), Response(port, id, reply))
    {
      if id in pendingRequests {
        pendingRequests := Without(pendingRequests, id);
        log := log + [Settlement(id, Resolved(reply))];
      }
    }

    method OnCloseTunnel()
      modifies this
      ensures State() == Step(old(State()), CloseTunnel)
    {
      tunnelPort := None;
      ghost var was := log;
      for i := 0 to |pendingRequests|
        invariant pendingRequests == old(pendingRequests)
        invariant State() == old(State()).(port := None, log := was + RejectAll(pendingRequests)[..i])
      {
        log := log + [Settlement(pendingRequests[i], Rejected(TunnelClosed))];
      }
      pendingRequests := [];
    }

    /** None is the answer 503 without a request through the tunnel. */
    method OnFetch() returns (id: Option<nat>)
      modifies this
      ensures State() == Step(old(State()), Fetch)
      ensures id == if old(tunnelPort).None? then None else Some(requestCounter)
    {
      if tunnelPort.None? {
        return None;
      }
      requestCounter := requestCounter + 1;
      reading := reading + {requestCounter};
      return Some(requestCounter);
    }

    method OnBodyRead(id: nat) returns (posted: bool)
      requires id in reading
      modifies this
      ensures State() == Step(old(State()), BodyRead(id)) && posted == old(tunnelPort).Some?
    {
      reading := reading - {id};
      if tunnelPort.None? {
        log := log + [Settlement(id, Rejected(NotConnected))];
        return false;
      }
      pendingRequests := pendingRequests + [id];
      armed := armed + {id};
      return true;
    }

    method OnTimer(id: nat)
      requires id in armed
      modifies this
      ensures State() == Step(old(State()), TimerFires(id))
    {
      armed := armed - {id};
      if id in pendingRequests {
        pendingRequests := Without(pendingRequests, id);
        log := log + [Settlement(id, Rejected(TimedOut))];
      }
    }
  }

  // ---- every request is settled once

  function Times(log: seq<Settlement>, id: nat): nat
  {
    if log == [] then 0 else Times(log[..|log| - 1], id) + (if log[|log| - 1].id == id then 1 else 0)
  }

  lemma {:induction false} TimesAppend(a: seq<Settlement>, b: seq<Settlement>, id: nat)
    ensures Times(a + b, id) == Times(a, id) + Times(b, id)
  {
    if b == [] {
      assert a + b == a;
    } else {
      InitOfAppend(a, b);
      TimesAppend(a, b[..|b| - 1], id);
    }
  }

  lemma TimesOne(log: seq<Settlement>, s: Settlement, id: nat)
    ensures Times(log + [s], id) == Times(log, id) + (if s.id == id then 1 else 0)
  {
    assert (log + [s])[..|log|] == log;
  }

  ghost predicate Distinct(ids: seq<nat>)
  {
    forall i, j :: 0 <= i < j < |ids| ==> ids[i] != ids[j]
  }

  lemma {:induction false} RejectedOnce(pending: seq<nat>, id: nat)
    requires Distinct(pending)
    ensures Times(RejectAll(pending), id) == if id in pending then 1 else 0
  {
    if pending != [] {
      var n := |pending| - 1;
      RejectedOnce(pending[..n], id);
      assert RejectAll(pending)[..n] == RejectAll(pending[..n]);
      assert pending == pending[..n] + [pending[n]];
    }
  }

  lemma {:induction false} WithoutDistinct(pending: seq<nat>, id: nat)
    requires Distinct(pending)
    ensures Distinct(Without(pending, id))
  {
    if pending != [] {
      var n := |pending| - 1;
      WithoutDistinct(pending[..n], id);
      assert pending[n] !in Without(pending[..n], id);
    }
  }

  /** An issued ID is in one place: its body is being read, it is pending under a timer, or it was settled, once. */
  ghost predicate Accounted(w: Worker, id: nat)
  {
    Times(w.log, id) + (if id in w.reading then 1 else 0) + (if id in w.pending then 1 else 0)
    == if 1 <= id <= w.counter then 1 else 0
  }

  ghost predicate Inv(w: Worker)
  {
    && (forall id :: Accounted(w, id))
    && Distinct(w.pending)
    && (forall id :: id in w.pending ==> id in w.armed)
  }

  lemma StepKeepsInv(w: Worker, e: Event)
    requires Inv(w)
    ensures Inv(Step(w, e))
  {
    var w' := Step(w, e);
    assert Distinct(w'.pending) by {
      if e.Response? || e.TimerFires? {
        WithoutDistinct(w.pending, e.id);
      } else if e.BodyRead? {
        assert Accounted(w, e.id);
      }
    }
    forall id
      ensures Accounted(w', id)
    {
      StepAccounts(w, e, id);
    }
  }

  lemma StepAccounts(w: Worker, e: Event, id: nat)
    requires Accounted(w, id) && Distinct(w.pending)
    ensures Accounted(Step(w, e), id)
  {
    hide Times;
    hide Without;
    hide RejectAll;
    hide Distinct;
    match e
    case CloseTunnel =>
      TimesAppend(w.log, RejectAll(w.pending), id);
      RejectedOnce(w.pending, id);
    case Response(_, k, reply) => TimesOne(w.log, Settlement(k, Resolved(reply)), id);
    case TimerFires(k) => TimesOne(w.log, Settlement(k, Rejected(TimedOut)), id);
    case BodyRead(k) => TimesOne(w.log, Settlement(k, Rejected(NotConnected)), id);
    case _ =>
  }

  lemma {:induction false} RunKeepsInv(w: Worker, events: seq<Event>)
    requires Inv(w)
    ensures Inv(Run(w, events))
  {
    hide Inv;
    hide Step;
    if events != [] {
      RunKeepsInv(w, events[..|events| - 1]);
      StepKeepsInv(Run(w, events[..|events| - 1]), events[|events| - 1]);
    }
  }

  lemma StartInv()
    ensures Inv(INSTALLED)
  {
  }

  /**
   In one lifetime of the worker no promise is settled twice, and what is pending is exactly what has been issued
   and neither settled nor still being read; nothing that was not issued is ever pending or settled.
   */
  lemma SettledAtMostOnce(events: seq<Event>, id: nat)
    ensures var w := Run(INSTALLED, events);
            && Times(w.log, id) <= 1
            && (id in w.pending <==> 1 <= id <= w.counter && id !in w.reading && Times(w.log, id) == 0)
            && (id in w.pending ==> id in w.armed)
  {
    StartInv();
    RunKeepsInv(INSTALLED, events);
    assert Accounted(Run(INSTALLED, events), id);
    hide Run;
  }

  /** The first event that decides a pending request. */
  function Decided(events: seq<Event>, id: nat): Option<Fate>
  {
    if events == [] then None
    else
      var before, e := Decided(events[..|events| - 1], id), events[|events| - 1];
      if before.Some? then before
      else
        match e
        case Response(_, k, reply) => if k == id then Some(Resolved(reply)) else None
        case TimerFires(k) => if k == id then Some(Rejected(TimedOut)) else None
        case CloseTunnel => Some(Rejected(TunnelClosed))
        case _ => None
  }

  /**
   What becomes of a pending request, in any run from any state: the first of a reply that bears its ID, its
   timer and the closing of the tunnel settles it, and nothing that comes later counts.
   */
  lemma {:induction false} FirstDecides(w: Worker, events: seq<Event>, id: nat)
    requires Inv(w) && id in w.pending
    ensures var w' := Run(w, events);
            match Decided(events, id)
            case None => id in w'.pending && Times(w'.log, id) == 0
            case Some(fate) => id !in w'.pending && Times(w'.log, id) == 1 && Settlement(id, fate) in w'.log
  {
    if events == [] {
      assert Accounted(w, id);
    } else {
      var n := |events| - 1;
      FirstDecides(w, events[..n], id);
      RunKeepsInv(w, events[..n]);
      DecidesNow(Run(w, events[..n]), events[n], id);
      hide Inv;
      hide Step;
    }
  }

  lemma DecidesNow(w: Worker, e: Event, id: nat)
    requires Inv(w) && (id in w.pending || Times(w.log, id) == 1)
    ensures var w' := Step(w, e);
            && w.log <= w'.log
            && (id !in w.pending ==> id !in w'.pending && Times(w'.log, id) == 1)
            && (id in w.pending ==>
                  match Decided([e], id)
                  case None => id in w'.pending && Times(w'.log, id) == 0
                  case Some(fate) => id !in w'.pending && Times(w'.log, id) == 1 && Settlement(id, fate) in w'.log)
  {
    var w' := Step(w, e);
    assert Accounted(w, id);
    assert [e][..0] == [] && Decided([], id) == None;
    StepKeepsInv(w, e);
    assert Accounted(w', id);
    if e.CloseTunnel? && id in w.pending {
      var i :| 0 <= i < |w.pending| && w.pending[i] == id;
      assert RejectAll(w.pending)[i] == Settlement(id, Rejected(TunnelClosed));
    }
  }

  /** So every request whose timer has fired since it was sent is settled. */
  lemma TimerSettles(w: Worker, events: seq<Event>, id: nat)
    requires Inv(w) && id in w.pending && TimerFires(id) in events
    ensures Times(Run(w, events).log, id) == 1 && id !in Run(w, events).pending
  {
    FiredIsDecided(events, id);
    FirstDecides(w, events, id);
  }

  lemma {:induction false} FiredIsDecided(events: seq<Event>, id: nat)
    requires TimerFires(id) in events
    ensures Decided(events, id).Some?
  {
    var n := |events| - 1;
    if events[n] != TimerFires(id) {
      assert events == events[..n] + [events[n]];
      FiredIsDecided(events[..n], id);
    }
  }

  /** A promise is only ever resolved with a reply that came in under its own ID. */
  lemma {:induction false} OwnReply(events: seq<Event>, i: nat)
    requires i < |Run(INSTALLED, events).log|
    ensures var s := Run(INSTALLED, events).log[i];
            s.fate.Resolved? ==> exists port :: Response(port, s.id, s.fate.reply) in events
  {
    if events != [] {
      var n := |events| - 1;
      var w, s := Run(INSTALLED, events[..n]), Run(INSTALLED, events).log[i];
      if i < |w.log| {
        OwnReply(events[..n], i);
        assert s.fate.Resolved? ==> exists port :: Response(port, s.id, s.fate.reply) in events[..n];
      } else if s.fate.Resolved? {
        assert events[n] == Response(events[n].port, s.id, s.fate.reply);
      }
    }
  }

  // ---- what the events alone say

  /** The worker has been given this port last, and the tunnel has not been closed since. */
  ghost predicate Given(events: seq<Event>, port: nat)
  {
    exists i :: 0 <= i < |events| && events[i] == InitTunnel(port) && NoneSince(events, i)
  }

  ghost predicate NoneSince(events: seq<Event>, i: nat)
  {
    forall j :: i < j < |events| ==> !events[j].InitTunnel? && !events[j].CloseTunnel?
  }

  ghost predicate Connected(events: seq<Event>)
  {
    exists port :: Given(events, port)
  }

  /** The fetches that found a port; each is given the next ID. */
  ghost function Fetched(events: seq<Event>): nat
  {
    if events == [] then 0
    else
      var before := events[..|events| - 1];
      Fetched(before) + (if events[|events| - 1].Fetch? && Connected(before) then 1 else 0)
  }

  /** The request has been issued, and its body has not been read. */
  ghost predicate BeingRead(events: seq<Event>, id: nat)
  {
    events != [] &&
    var before, e := events[..|events| - 1], events[|events| - 1];
    if e.Fetch? && Connected(before) && id == Fetched(before) + 1 then true
    else BeingRead(before, id) && e != BodyRead(id)
  }

  lemma GivenStep(events: seq<Event>, port: nat)
    requires events != []
    ensures var before, e := events[..|events| - 1], events[|events| - 1];
            Given(events, port) <==>
              e == InitTunnel(port) || (Given(before, port) && !e.InitTunnel? && !e.CloseTunnel?)
  {
    var n := |events| - 1;
    if Given(events, port) {
      var i :| 0 <= i < |events| && events[i] == InitTunnel(port) && NoneSince(events, i);
      if i < n {
        assert events[..n][i] == InitTunnel(port) && NoneSince(events[..n], i);
      }
    }
    if events[n] == InitTunnel(port) {
      assert NoneSince(events, n);
    } else if Given(events[..n], port) && !events[n].InitTunnel? && !events[n].CloseTunnel? {
      var i :| 0 <= i < n && events[..n][i] == InitTunnel(port) && NoneSince(events[..n], i);
      assert events[i] == InitTunnel(port);
      forall j | i < j < |events|
        ensures !events[j].InitTunnel? && !events[j].CloseTunnel?
      {
        assert j < n ==> events[j] == events[..n][j];
      }
      assert NoneSince(events, i);
    }
  }

  /**
   In one lifetime of the worker: its port is the one it was given last, if the tunnel has not been closed since, it
   has issued one ID for every fetch that found a port, and is reading the bodies of those issued and not read.
   */
  lemma {:induction false} PortExactly(events: seq<Event>, port: nat, id: nat)
    ensures var w := Run(INSTALLED, events);
            && (w.port == Some(port) <==> Given(events, port)) && (w.port.Some? <==> Connected(events))
            && w.counter == Fetched(events) && (id in w.reading <==> BeingRead(events, id))
  {
    hide Given;
    hide Settle;
    hide RejectAll;
    if events == [] {
      NothingGiven();
    } else {
      var n := |events| - 1;
      PortExactly(events[..n], port, id);
      ConnectedStep(events);
      GivenStep(events, port);
      var w := Run(INSTALLED, events[..n]);
      assert Run(INSTALLED, events) == Step(w, events[n]);
      StepPort(w, events[n], id);
      hide Connected;
      hide Step;
      hide Run;
    }
  }

  lemma NothingGiven()
    ensures forall port :: !Given([], port)
    ensures !Connected([])
  {
  }

  lemma ConnectedStep(events: seq<Event>)
    requires events != []
    ensures var before, e := events[..|events| - 1], events[|events| - 1];
            Connected(events) <==> e.InitTunnel? || (Connected(before) && !e.CloseTunnel?)
  {
    hide Given;
    var n := |events| - 1;
    if Connected(events) {
      var port :| Given(events, port);
      GivenStep(events, port);
    }
    if events[n].InitTunnel? {
      GivenStep(events, events[n].port);
    } else if Connected(events[..n]) && !events[n].CloseTunnel? {
      var port :| Given(events[..n], port);
      GivenStep(events, port);
    }
  }

  lemma StepPort(w: Worker, e: Event, id: nat)
    ensures var w' := Step(w, e);
            && w'.port == (match e case InitTunnel(p) => Some(p) case CloseTunnel => None case _ => w.port)
            && w'.counter == (if e.Fetch? && w.port.Some? then w.counter + 1 else w.counter)
            && (id in w'.reading <==>
                  (e.Fetch? && w.port.Some? && id == w.counter + 1) || (id in w.reading && e != BodyRead(id)))
  {
  }

  /**
   A request whose body has been read goes out on the port: it is the last of those pending, under a timer, if there
   is a port then, and is rejected otherwise; nothing else changes.
   */
  lemma SentExactly(events: seq<Event>, id: nat)
    requires BeingRead(events, id)
    ensures var w, w' := Run(INSTALLED, events), Run(INSTALLED, events + [BodyRead(id)]);
            && id !in w'.reading
            && (forall k :: k != id ==> (k in w'.reading <==> k in w.reading))
            && if Connected(events) then
                 w'.pending == w.pending + [id] && w'.armed == w.armed + {id} && w'.log == w.log
               else
                 && w'.pending == w.pending && w'.armed == w.armed
                 && w'.log == w.log + [Settlement(id, Rejected(NotConnected))]
  {
    assert (events + [BodyRead(id)])[..|events|] == events;
    PortExactly(events, 0, id);
  }
}
