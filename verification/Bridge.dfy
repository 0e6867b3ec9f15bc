/**
 The service worker and the page together (web/sw.js, web/index.html, web/webrtc-client.js): the page takes the
 requests that the worker posts, and posts back what becomes of its promises. The other requests of the page have
 IDs of their own. Messages between the two may take any time, and overtake one another.
 */
module Bridge {
  import opened Bytes
  import opened ServiceWorker
  import opened PageRequests

  datatype Posted = Posted(port: nat, id: nat)

  /**
   `posted` holds the requests the worker has posted so far, `taken` the promise that the page has made for each one it
   has taken, by position, and `answered` the positions whose answer has come back to the worker.
   */
  datatype Bridged = Bridged(worker: Worker, page: Page, posted: seq<Posted>, taken: map<nat, nat>, answered: set<nat>)

  const OPENED := Bridged(INSTALLED, LOADED, [], map[], {})

  datatype Move =
    | WorkerDoes(e: Event)
    | PageTakes(i: nat, throws: bool)
    | PageDoes(a: Action)
    | PageAnswers(i: nat)

  function Digits(n: nat): (s: string)
    ensures |s| >= 1
  {
    var digit := '0' + (n % 10) as char;
    if n < 10 then [digit] else Digits(n / 10) + [digit]
  }

  function RequestID(n: nat): string
  {
    "sw-req-" + Digits(n)
  }

  /** What the page makes of a rejection; the message after the colon is left out. */
  const BAD_GATEWAY := Reply(502, map["Content-Type" := "text/plain"], "btunnel proxy error: ")

  function AnswerTo(fate: Fate): Reply
  {
    if fate.Resolved? then fate.reply else BAD_GATEWAY
  }

  function Posts(w: Worker, e: Event): seq<Posted>
  {
    if e.BodyRead? && e.id in w.reading && w.port.Some? then [Posted(w.port.value, e.id)] else []
  }

  /** The page's promise for a request it has taken is settled, and its answer has not come back. */
  predicate CanAnswer(t: Bridged, i: nat)
  {
    && i in t.taken && i !in t.answered && i < |t.posted|
    && t.taken[i] in t.page.calls && t.page.calls[t.taken[i]] != []
  }

  function Answer(t: Bridged, i: nat): Event
    requires CanAnswer(t, i)
  {
    Response(t.posted[i].port, t.posted[i].id, AnswerTo(t.page.calls[t.taken[i]][0]))
  }

  /** A promise keeps the first call of its functions. Nothing but the page answers on a port. */
  function Advance(t: Bridged, m: Move): Bridged
  {
    match m
    case WorkerDoes(e) =>
      if e.Response? then t else t.(worker := Step(t.worker, e), posted := t.posted + Posts(t.worker, e))
    case PageTakes(i, throws) =>
      if i < |t.posted| && i !in t.taken then
        t.(taken := t.taken[i := t.page.next], page := Take(t.page, Proxies(RequestID(t.posted[i].id), throws)))
      else t
    case PageDoes(a) => t.(page := Take(t.page, a))
    case PageAnswers(i) =>
      if CanAnswer(t, i) then t.(worker := Step(t.worker, Answer(t, i)), answered := t.answered + {i}) else t
  }

  function AdvanceAll(t: Bridged, moves: seq<Move>): Bridged
  {
    if moves == [] then t else Advance(AdvanceAll(t, moves[..|moves| - 1]), moves[|moves| - 1])
  }

  /** What the page sends can be sent, and its other requests stay clear of the worker's IDs and of each other's. */
  ghost predicate Clear(t: Bridged, m: Move)
  {
    match m
    case PageTakes(_, throws) => t.page.channels ==> !throws
    case PageDoes(a) => Careful(t.page, a) && (a.Proxies? ==> forall k :: a.id != RequestID(k))
    case _ => true
  }

  ghost predicate ClearRun(t: Bridged, moves: seq<Move>)
  {
    moves == []
    || (ClearRun(t, moves[..|moves| - 1]) && Clear(AdvanceAll(t, moves[..|moves| - 1]), moves[|moves| - 1]))
  }

  lemma {:induction false} DigitsDiffer(m: nat, n: nat)
    requires Digits(m) == Digits(n)
    ensures m == n
  {
    var s := Digits(m);
    assert s[|s| - 1] == '0' + (m % 10) as char == '0' + (n % 10) as char;
    assert m < 10 <==> |s| == 1;
    if m >= 10 {
      assert s[..|s| - 1] == Digits(m / 10) == Digits(n / 10);
      DigitsDiffer(m / 10, n / 10);
    }
  }

  lemma RequestIDsDiffer(m: nat, n: nat)
    ensures RequestID(m) == RequestID(n) <==> m == n
  {
    assert RequestID(m)[7..] == Digits(m) && RequestID(n)[7..] == Digits(n);
    if Digits(m) == Digits(n) {
      DigitsDiffer(m, n);
    }
  }

  // ---- every request is posted, taken and answered once

  /** Each issued ID is posted at most once, after its body has been read. */
  ghost predicate PostedOnce(t: Bridged)
  {
    && (forall i, j :: 0 <= i < j < |t.posted| ==> t.posted[i].id != t.posted[j].id)
    && (forall i :: 0 <= i < |t.posted| ==>
          1 <= t.posted[i].id <= t.worker.counter && t.posted[i].id !in t.worker.reading)
  }

  ghost predicate TakenOnce(t: Bridged)
  {
    && (forall i :: i in t.taken ==> i < |t.posted| && t.taken[i] < t.page.next)
    && (forall i, j :: i in t.taken && j in t.taken && t.taken[i] == t.taken[j] ==> i == j)
    && t.answered <= t.taken.Keys
  }

  /** The promise p is the page's for the request posted at i. */
  ghost predicate Serves(t: Bridged, p: int, i: int)
  {
    0 <= i < |t.posted| && i in t.taken && t.taken[i] == p
  }

  /** Every timer that looks for one of the worker's IDs belongs to the promise made for it. */
  ghost predicate TimersMatch(t: Bridged)
  {
    && (forall p, k :: p in t.page.armed && t.page.armed[p] == RequestID(k) ==>
          exists i :: Serves(t, p, i) && t.posted[i].id == k)
    && (forall p, i :: p in t.page.armed && Serves(t, p, i) ==> t.page.armed[p] == RequestID(t.posted[i].id))
  }

  ghost predicate Unanswered(t: Bridged, id: nat, i: nat)
  {
    i < |t.posted| && t.posted[i].id == id && i !in t.answered
  }

  ghost predicate NoneForgotten(t: Bridged)
  {
    forall id :: id in t.worker.pending ==> exists i :: Unanswered(t, id, i)
  }

  ghost predicate InStep(t: Bridged)
  {
    && ServiceWorker.Inv(t.worker) && OK(t.page)
    && PostedOnce(t) && TakenOnce(t) && TimersMatch(t) && NoneForgotten(t)
  }

  lemma WorkerKeepsPosted(t: Bridged, e: Event)
    requires ServiceWorker.Inv(t.worker) && PostedOnce(t)
    ensures PostedOnce(Advance(t, WorkerDoes(e)))
  {
    if e.BodyRead? {
      assert Accounted(t.worker, e.id);
    }
  }

  lemma WorkerForgetsNone(t: Bridged, e: Event)
    requires TakenOnce(t) && NoneForgotten(t)
    ensures NoneForgotten(Advance(t, WorkerDoes(e)))
  {
    var t' := Advance(t, WorkerDoes(e));
    forall id | id in t'.worker.pending
      ensures exists i :: Unanswered(t', id, i)
    {
      if id in t.worker.pending {
        var i :| Unanswered(t, id, i);
        assert Unanswered(t', id, i);
      } else {
        assert Unanswered(t', id, |t.posted|);
      }
    }
  }

  lemma AnswerForgetsNone(t: Bridged, i: nat)
    requires PostedOnce(t) && NoneForgotten(t) && CanAnswer(t, i)
    ensures NoneForgotten(Advance(t, PageAnswers(i)))
  {
    var t' := Advance(t, PageAnswers(i));
    forall id | id in t'.worker.pending
      ensures exists j :: Unanswered(t', id, j)
    {
      var j :| Unanswered(t, id, j);
      assert Unanswered(t', id, j);
    }
  }

  lemma WorkerTimers(t: Bridged, w: Worker, more: seq<Posted>, answered: set<nat>)
    requires TimersMatch(t) && TakenOnce(t) && answered <= t.taken.Keys
    ensures TimersMatch(Bridged(w, t.page, t.posted + more, t.taken, answered))
    ensures TakenOnce(Bridged(w, t.page, t.posted + more, t.taken, answered))
  {
    var t' := Bridged(w, t.page, t.posted + more, t.taken, answered);
    forall p, k | p in t.page.armed && t.page.armed[p] == RequestID(k)
      ensures exists i :: Serves(t', p, i) && t'.posted[i].id == k
    {
      var i :| Serves(t, p, i) && t.posted[i].id == k;
      assert Serves(t', p, i);
    }
    forall p, i | p in t.page.armed && Serves(t', p, i)
      ensures t.page.armed[p] == RequestID(t'.posted[i].id)
    {
      assert Serves(t, p, i);
    }
  }

  /** No timer of the page looks for the ID of a request that it has not taken. */
  lemma UntakenIsUnused(t: Bridged, i: nat)
    requires PostedOnce(t) && TimersMatch(t) && i < |t.posted| && i !in t.taken
    ensures Unused(t.page, RequestID(t.posted[i].id))
  {
  }

  lemma TakingTimers(t: Bridged, i: nat, throws: bool)
    requires OK(t.page) && TakenOnce(t) && TimersMatch(t) && i < |t.posted| && i !in t.taken
    ensures TimersMatch(Advance(t, PageTakes(i, throws)))
  {
    var t', q := Advance(t, PageTakes(i, throws)), t.page.next;
    assert Accounts(t.page, q);
    hide OK;
    hide RequestID;
    forall p, k | p in t'.page.armed && t'.page.armed[p] == RequestID(k)
      ensures exists j :: Serves(t', p, j) && t'.posted[j].id == k
    {
      if p == q {
        RequestIDsDiffer(k, t.posted[i].id);
        assert Serves(t', p, i);
      } else {
        var j :| Serves(t, p, j) && t.posted[j].id == k;
        assert Serves(t', p, j);
      }
    }
    forall p, j | p in t'.page.armed && Serves(t', p, j)
      ensures t'.page.armed[p] == RequestID(t'.posted[j].id)
    {
      assert j != i ==> Serves(t, p, j);
    }
  }

  lemma DoingTimers(t: Bridged, a: Action)
    requires OK(t.page) && TakenOnce(t) && TimersMatch(t) && Clear(t, PageDoes(a))
    ensures TimersMatch(Advance(t, PageDoes(a)))
  {
    var t' := Advance(t, PageDoes(a));
    assert Accounts(t.page, t.page.next);
    forall p
      ensures p in t'.page.armed ==>
                (p in t.page.armed && t'.page.armed[p] == t.page.armed[p])
                || (p == t.page.next && forall k :: t'.page.armed[p] != RequestID(k))
    {
      if p in t'.page.armed {
        ArmedNow(t.page, a, p);
      }
    }
    hide OK;
    hide Take;
    hide RequestID;
    hide Careful;
    forall p, k | p in t'.page.armed && t'.page.armed[p] == RequestID(k)
      ensures exists j :: Serves(t', p, j) && t'.posted[j].id == k
    {
      var j :| Serves(t, p, j) && t.posted[j].id == k;
      assert Serves(t', p, j);
    }
    forall p, j | p in t'.page.armed && Serves(t', p, j)
      ensures t'.page.armed[p] == RequestID(t'.posted[j].id)
    {
      assert Serves(t, p, j);
    }
  }

  /** Only a request sets a timer: its own. */
  lemma ArmedNow(g: Page, a: Action, p: nat)
    requires p in Take(g, a).armed
    ensures (p in g.armed && Take(g, a).armed[p] == g.armed[p])
            || (p == g.next && a.Proxies? && Take(g, a).armed[p] == a.id)
  {
  }

  lemma WorkerKeeps(t: Bridged, e: Event)
    requires InStep(t) && !e.Response?
    ensures InStep(Advance(t, WorkerDoes(e)))
  {
    StepKeepsInv(t.worker, e);
    WorkerKeepsPosted(t, e);
    WorkerForgetsNone(t, e);
    WorkerTimers(t, Step(t.worker, e), Posts(t.worker, e), t.answered);
    hide ServiceWorker.Inv;
    hide OK;
    hide TimersMatch;
    hide NoneForgotten;
    hide PostedOnce;
    hide TakenOnce;
    hide Step;
  }

  lemma TakingKeeps(t: Bridged, i: nat, throws: bool)
    requires InStep(t) && Clear(t, PageTakes(i, throws)) && i < |t.posted| && i !in t.taken
    ensures InStep(Advance(t, PageTakes(i, throws)))
  {
    hide ServiceWorker.Inv;
    hide OK;
    hide TimersMatch;
    hide NoneForgotten;
    UntakenIsUnused(t, i);
    TakeKeepsOK(t.page, Proxies(RequestID(t.posted[i].id), throws));
    TakingTimers(t, i, throws);
    PageForgetsNone(t, Advance(t, PageTakes(i, throws)));
  }

  lemma DoingKeeps(t: Bridged, a: Action)
    requires InStep(t) && Clear(t, PageDoes(a))
    ensures InStep(Advance(t, PageDoes(a)))
  {
    hide ServiceWorker.Inv;
    hide OK;
    hide TimersMatch;
    hide NoneForgotten;
    TakeKeepsOK(t.page, a);
    DoingTimers(t, a);
    NextGrows(t.page, a);
    PageForgetsNone(t, Advance(t, PageDoes(a)));
  }

  lemma AnswerKeeps(t: Bridged, i: nat)
    requires InStep(t) && CanAnswer(t, i)
    ensures InStep(Advance(t, PageAnswers(i)))
  {
    hide ServiceWorker.Inv;
    hide OK;
    hide TimersMatch;
    hide NoneForgotten;
    StepKeepsInv(t.worker, Answer(t, i));
    WorkerTimers(t, Step(t.worker, Answer(t, i)), [], t.answered + {i});
    AnswerForgetsNone(t, i);
    assert t.posted + [] == t.posted;
  }

  lemma AdvanceKeeps(t: Bridged, m: Move)
    requires InStep(t) && Clear(t, m)
    ensures InStep(Advance(t, m))
  {
    match m
    case WorkerDoes(e) =>
      if !e.Response? {
        WorkerKeeps(t, e);
      }
    case PageTakes(i, throws) =>
      if i < |t.posted| && i !in t.taken {
        TakingKeeps(t, i, throws);
      }
    case PageDoes(a) => DoingKeeps(t, a);
    case PageAnswers(i) =>
      if CanAnswer(t, i) {
        AnswerKeeps(t, i);
      }
    hide InStep;
  }

  lemma PageForgetsNone(t: Bridged, t': Bridged)
    requires NoneForgotten(t) && t'.worker == t.worker && t'.posted == t.posted && t'.answered == t.answered
    ensures NoneForgotten(t')
  {
    forall id | id in t'.worker.pending
      ensures exists i :: Unanswered(t', id, i)
    {
      var i :| Unanswered(t, id, i);
      assert Unanswered(t', id, i);
    }
  }

  lemma {:induction false} RunKeeps(moves: seq<Move>)
    requires ClearRun(OPENED, moves)
    ensures InStep(AdvanceAll(OPENED, moves))
  {
    hide InStep;
    hide Advance;
    hide Clear;
    if moves != [] {
      RunKeeps(moves[..|moves| - 1]);
      AdvanceKeeps(AdvanceAll(OPENED, moves[..|moves| - 1]), moves[|moves| - 1]);
    } else {
      OpenedInStep();
    }
  }

  lemma OpenedInStep()
    ensures InStep(OPENED)
  {
  }

  /** What the worker sees of a move. */
  function Seen(t: Bridged, m: Move): seq<Event>
  {
    match m
    case WorkerDoes(e) => if e.Response? then [] else [e]
    case PageAnswers(i) => if CanAnswer(t, i) then [Answer(t, i)] else []
    case _ => []
  }

  /** What the page does in a move. */
  function Done(t: Bridged, m: Move): seq<Action>
  {
    match m
    case PageDoes(a) => [a]
    case PageTakes(i, throws) =>
      if i < |t.posted| && i !in t.taken then [Proxies(RequestID(t.posted[i].id), throws)] else []
    case _ => []
  }

  function WorkerRun(moves: seq<Move>): seq<Event>
  {
    if moves == [] then []
    else
      var n := |moves| - 1;
      WorkerRun(moves[..n]) + Seen(AdvanceAll(OPENED, moves[..n]), moves[n])
  }

  /** What the page has done in a run, with the worker's requests among its own. */
  function PageRun(moves: seq<Move>): seq<Action>
  {
    if moves == [] then []
    else
      var n := |moves| - 1;
      PageRun(moves[..n]) + Done(AdvanceAll(OPENED, moves[..n]), moves[n])
  }

  /**
   The requests that a worker posts are taken as the page's careful runs demand, so that everything proved of
   these holds of the page with its worker, and everything proved of the worker of the worker with its page.
   */
  lemma {:induction false} RequestsAreCareful(moves: seq<Move>)
    requires ClearRun(OPENED, moves)
    ensures var t := AdvanceAll(OPENED, moves);
            && CarefulRun(LOADED, PageRun(moves)) && t.page == TakeAll(LOADED, PageRun(moves))
            && t.worker == Run(INSTALLED, WorkerRun(moves))
  {
    if moves != [] {
      var n := |moves| - 1;
      var t := AdvanceAll(OPENED, moves[..n]);
      RequestsAreCareful(moves[..n]);
      RunKeeps(moves[..n]);
      PageMove(t, moves[n], PageRun(moves[..n]));
      WorkerMove(t, moves[n], WorkerRun(moves[..n]));
    }
    hide InStep;
    hide Clear;
    hide Advance;
    hide TakeAll;
    hide Run;
    hide CarefulRun;
    hide Seen;
    hide Done;
  }

  lemma PageMove(t: Bridged, m: Move, did: seq<Action>)
    requires InStep(t) && Clear(t, m) && CarefulRun(LOADED, did) && t.page == TakeAll(LOADED, did)
    ensures CarefulRun(LOADED, did + Done(t, m)) && Advance(t, m).page == TakeAll(LOADED, did + Done(t, m))
  {
    hide TakeAll;
    hide CarefulRun;
    assert did + [] == did;
    if m.PageDoes? {
      PageSnoc(did, m.a);
    } else if m.PageTakes? && m.i < |t.posted| && m.i !in t.taken {
      UntakenIsUnused(t, m.i);
      PageSnoc(did, Proxies(RequestID(t.posted[m.i].id), m.throws));
    }
    hide InStep;
    hide Take;
    hide Step;
    hide Unused;
  }

  lemma WorkerMove(t: Bridged, m: Move, saw: seq<Event>)
    requires t.worker == Run(INSTALLED, saw)
    ensures Advance(t, m).worker == Run(INSTALLED, saw + Seen(t, m))
  {
    hide Run;
    assert saw + [] == saw;
    if m.WorkerDoes? {
      WorkerSnoc(saw, m.e);
    } else if m.PageAnswers? && CanAnswer(t, m.i) {
      WorkerSnoc(saw, Answer(t, m.i));
    }
    hide Take;
    hide Step;
  }

  lemma PageSnoc(run: seq<Action>, a: Action)
    ensures TakeAll(LOADED, run + [a]) == Take(TakeAll(LOADED, run), a)
    ensures CarefulRun(LOADED, run + [a]) <==> CarefulRun(LOADED, run) && Careful(TakeAll(LOADED, run), a)
  {
    assert (run + [a])[..|run|] == run;
  }

  lemma WorkerSnoc(events: seq<Event>, e: Event)
    ensures Run(INSTALLED, events + [e]) == Step(Run(INSTALLED, events), e)
  {
    assert (events + [e])[..|events|] == events;
  }

  /**
   Where a request is: posted once and taken once, its promises at the worker and at the page are settled at most
   once, and as long as the worker waits it is on its way, waits at the page, or its answer is on its way back.
   */
  lemma ExactlyOneOfEach(moves: seq<Move>, i: nat)
    requires ClearRun(OPENED, moves)
    ensures var t := AdvanceAll(OPENED, moves);
            i < |t.posted| ==>
              var id := t.posted[i].id;
              && (forall j :: 0 <= j < |t.posted| && t.posted[j].id == id ==> j == i)
              && Times(t.worker.log, id) == (if id in t.worker.pending then 0 else 1)
              && (i in t.taken ==>
                    && (forall j :: j in t.taken && t.taken[j] == t.taken[i] ==> j == i)
                    && t.taken[i] in t.page.calls
                    && |t.page.calls[t.taken[i]]| == if Waiting(t.page, t.taken[i]) then 0 else 1)
              && (id in t.worker.pending ==>
                    i !in t.taken || Waiting(t.page, t.taken[i]) || CanAnswer(t, i))
              && (i in t.answered ==> id !in t.worker.pending && !CanAnswer(t, i))
  {
    var t := AdvanceAll(OPENED, moves);
    RunKeeps(moves);
    hide AdvanceAll;
    hide ClearRun;
    if i < |t.posted| {
      var id := t.posted[i].id;
      assert Accounted(t.worker, id);
      if id in t.worker.pending {
        var j :| Unanswered(t, id, j);
        assert j == i;
      }
      if i in t.taken {
        assert Accounts(t.page, t.taken[i]);
      }
      hide Accounted;
      hide Accounts;
    }
  }

  // ---- a fetch gets its own reply

  /** The settlement is the answer to the request posted at i. */
  ghost predicate Backs(t: Bridged, i: nat, s: Settlement)
  {
    && i < |t.posted| && i in t.answered && i in t.taken && t.posted[i].id == s.id
    && t.taken[i] in t.page.calls && t.page.calls[t.taken[i]] != []
    && s.fate.Resolved? && s.fate.reply == AnswerTo(t.page.calls[t.taken[i]][0])
  }

  ghost predicate Backed(t: Bridged)
  {
    forall s :: s in t.worker.log && s.fate.Resolved? ==> exists i :: Backs(t, i, s)
  }

  lemma CallsGrow(g: Page, a: Action, p: nat)
    requires OK(g) && p in g.calls
    ensures p in Take(g, a).calls && g.calls[p] <= Take(g, a).calls[p]
  {
    assert Accounts(g, g.next) && Accounts(g, p);
  }

  lemma StaysBacked(t: Bridged, m: Move, i: nat, s: Settlement)
    requires InStep(t) && Backs(t, i, s)
    ensures Backs(Advance(t, m), i, s)
  {
    if m.PageDoes? {
      CallsGrow(t.page, m.a, t.taken[i]);
    } else if m.PageTakes? && m.i < |t.posted| {
      CallsGrow(t.page, Proxies(RequestID(t.posted[m.i].id), m.throws), t.taken[i]);
    }
    hide InStep;
    hide Take;
    hide Step;
  }

  /** The worker resolves a promise only on an answer, with what the answer says. */
  lemma ResolvedNow(w: Worker, e: Event, s: Settlement)
    requires s in Step(w, e).log && s !in w.log && s.fate.Resolved?
    ensures e.Response? && e.id == s.id && e.reply == s.fate.reply
  {
  }

  lemma AdvanceKeepsBacked(t: Bridged, m: Move)
    requires InStep(t) && Backed(t)
    ensures Backed(Advance(t, m))
  {
    var t' := Advance(t, m);
    forall s | s in t'.worker.log && s.fate.Resolved?
      ensures exists i :: Backs(t', i, s)
    {
      if s in t.worker.log {
        var i :| Backs(t, i, s);
        StaysBacked(t, m, i, s);
      } else if m.WorkerDoes? {
        ResolvedNow(t.worker, m.e, s);
      } else {
        ResolvedNow(t.worker, Answer(t, m.i), s);
        assert Backs(t', m.i, s);
      }
    }
  }

  /** The page's promise for the request posted at i is resolved only with a message under that request's ID. */
  ghost predicate FromChannel(t: Bridged, moves: seq<Move>, i: nat)
  {
    i in t.taken && i < |t.posted| && t.taken[i] in t.page.calls ==>
      forall reply :: Resolved(reply) in t.page.calls[t.taken[i]] ==>
        PageDoes(Completes(RequestID(t.posted[i].id), reply)) in moves
  }

  lemma PromiseCalledNow(g: Page, a: Action, p: nat, id: string, reply: Reply)
    requires OK(g) && Careful(g, a) && p < g.next && (p in g.armed ==> g.armed[p] == id)
    requires p in Take(g, a).calls && Resolved(reply) in Take(g, a).calls[p]
    ensures (p in g.calls && Resolved(reply) in g.calls[p]) || a == Completes(id, reply)
  {
    FateNow(g, a, p);
    assert [a][..0] == [];
    assert Accounts(g, p);
    hide OK;
    hide Take;
  }

  lemma {:induction false} RepliesFromChannel(moves: seq<Move>, i: nat)
    requires ClearRun(OPENED, moves)
    ensures FromChannel(AdvanceAll(OPENED, moves), moves, i)
  {
    if moves != [] {
      var n := |moves| - 1;
      var t, m := AdvanceAll(OPENED, moves[..n]), moves[n];
      RepliesFromChannel(moves[..n], i);
      RunKeeps(moves[..n]);
      ReplyNow(t, moves[..n], m, i);
      assert moves == moves[..n] + [m];
      hide InStep;
      hide Advance;
      hide FromChannel;
    }
  }

  lemma ReplyNow(t: Bridged, moves: seq<Move>, m: Move, i: nat)
    requires InStep(t) && Clear(t, m) && FromChannel(t, moves, i)
    ensures FromChannel(Advance(t, m), moves + [m], i)
  {
    var t' := Advance(t, m);
    if i in t'.taken && i < |t'.posted| && t'.taken[i] in t'.page.calls && t'.page != t.page {
      var p, a := t'.taken[i], if m.PageDoes? then m.a else Proxies(RequestID(t.posted[m.i].id), m.throws);
      if i in t.taken {
        assert Serves(t, p, i);
        assert Careful(t.page, a) by {
          if m.PageTakes? {
            UntakenIsUnused(t, m.i);
          }
        }
        forall reply | Resolved(reply) in t'.page.calls[p]
          ensures PageDoes(Completes(RequestID(t.posted[i].id), reply)) in moves + [m]
        {
          PromiseCalledNow(t.page, a, p, RequestID(t.posted[i].id), reply);
        }
      }
      hide OK;
    }
  }

  lemma {:induction false} AnswersAreBacked(moves: seq<Move>)
    requires ClearRun(OPENED, moves)
    ensures Backed(AdvanceAll(OPENED, moves))
  {
    if moves != [] {
      AnswersAreBacked(moves[..|moves| - 1]);
      RunKeeps(moves[..|moves| - 1]);
      AdvanceKeepsBacked(AdvanceAll(OPENED, moves[..|moves| - 1]), moves[|moves| - 1]);
      hide InStep;
      hide Advance;
      hide Backed;
    }
  }

  /**
   A fetch of the worker is only ever resolved with the reply that came through the channel under its own ID, or
   with 502 because the page's promise for it was rejected.
   */
  lemma FetchGetsItsReply(moves: seq<Move>, s: Settlement)
    requires ClearRun(OPENED, moves) && s in AdvanceAll(OPENED, moves).worker.log && s.fate.Resolved?
    ensures PageDoes(Completes(RequestID(s.id), s.fate.reply)) in moves
            || (s.fate.reply == BAD_GATEWAY && s.fate.reply.status == 502
                && var t := AdvanceAll(OPENED, moves);
                   exists i, reason :: Backs(t, i, s) && t.page.calls[t.taken[i]] == [Rejected(reason)])
  {
    var t := AdvanceAll(OPENED, moves);
    AnswersAreBacked(moves);
    RunKeeps(moves);
    var i :| Backs(t, i, s);
    RepliesFromChannel(moves, i);
    assert Accounts(t.page, t.taken[i]);
    hide AdvanceAll;
    var fate := t.page.calls[t.taken[i]][0];
    assert t.page.calls[t.taken[i]] == [fate];
    if fate.Rejected? {
      assert t.page.calls[t.taken[i]] == [Rejected(fate.reason)];
    }
  }
}
