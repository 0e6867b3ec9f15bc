/**
 One direction of a tunnel: a sender's messages cut into encoded frames, a transport that
 keeps the order of frames per request ID, and the receiver's reassembly and output queue.
 */
module Link {
  import opened Bytes
  import opened Framing
  import opened Reassembly
  import opened Delivery

  /**
   `wire` holds the encoded frames in flight on each ID, `cut` the IDs that the sender's peer takes no more frames
   of, and `inbox` the messages ProcessIncoming has put out. `sent`, `cursor` and `taken` are history: the messages
   sent on each ID, how far into them the receiver is, and the messages its consumer has taken.
   */
  datatype Link = Link(
    wire: map<uint32, seq<bytes>>,
    cut: set<uint32>,
    table: Table,
    inbox: seq<Message>,
    sent: map<uint32, seq<bytes>>,
    cursor: map<uint32, Cursor>,
    taken: seq<Message>)

  function Empty(): Link
  {
    Link(map[], {}, map[], [], map[], map[], [])
  }

  function CursorOf(l: Link, id: uint32): Cursor
  {
    if id in l.cursor then l.cursor[id] else Cursor(0, 0)
  }

  /** `sent` has every message the proxy sends, whether or not its frames get out. */
  function Send(l: Link, id: uint32, data: bytes): Link
  {
    l.(wire := if id in l.cut then l.wire else l.wire[id := At(l.wire, id) + EncodeAll(Frames(id, data))],
       sent := l.sent[id := At(l.sent, id) + [data]])
  }

  /** All but the first n frames in flight on id are lost, or were refused by peer.Send, and so are all later ones. */
  function Break(l: Link, id: uint32, n: nat): Link
  {
    l.(wire := l.wire[id := At(l.wire, id)[..Min(n, |At(l.wire, id)|)]], cut := l.cut + {id})
  }

  /** The bytes of {"type":"ping"}. */
  const PING: bytes := [123, 34, 116, 121, 112, 101, 34, 58, 34, 112, 105, 110, 103, 34, 125]

  /** The heartbeat goes out on ID 0. */
  function Ping(l: Link): Link
  {
    l.(wire := l.wire[0 := At(l.wire, 0) + [Encoded(Frame(0, 0, 1, PING))]])
  }

  /** The oldest frame in flight on id reaches the receiver. */
  function Deliver(l: Link, id: uint32): Link
  {
    var flying := At(l.wire, id);
    if flying == [] then l
    else
      var c := CursorOf(l, id);
      var next := l.(wire := l.wire[id := flying[1..]],
                     cursor := if c.done < |At(l.sent, id)| then l.cursor[id := Next(At(l.sent, id), c)] else l.cursor);
      match DecodeFrame(flying[0])
      case Decoded(f) =>
        var r := Accept(l.table, f);
        next.(table := r.table, inbox := l.inbox + r.emitted)
      case _ => next
  }

  function Take(l: Link): Link
    requires l.inbox != []
  {
    l.(inbox := l.inbox[1..], taken := l.taken + [l.inbox[0]])
  }

  /** How many messages of the ID have been taken. */
  function TakenOn(l: Link, id: uint32): nat
  {
    |DataFor(l.taken, id)|
  }

  /** On every ID the receiver is exactly where its cursor says. */
  ghost predicate InOrder(l: Link, id: uint32)
  {
    var msgs := At(l.sent, id);
    var c := CursorOf(l, id);
    && AllSendable(msgs) && ValidCursor(msgs, c)
    && At(l.wire, id) <= EncodeAll(Rest(id, msgs, c))
    && (id !in l.cut ==> At(l.wire, id) == EncodeAll(Rest(id, msgs, c)))
    && Entry(l.table, id) == FifoEntry(msgs, c)
    && DataFor(l.taken + l.inbox, id) == msgs[..c.done]
  }

  ghost predicate Inv(l: Link)
  {
    && (forall id: uint32 :: id != 0 ==> InOrder(l, id))
    && 0 !in l.cut
    && (forall i :: 0 <= i < |At(l.wire, 0)| ==> At(l.wire, 0)[i] == Encoded(Frame(0, 0, 1, PING)))
    && (forall i :: 0 <= i < |l.inbox| ==> l.inbox[i].requestID != 0)
  }

  lemma EncodeAllConcat(a: seq<Frame>, b: seq<Frame>)
    ensures EncodeAll(a + b) == EncodeAll(a) + EncodeAll(b)
  {
  }

  lemma SendInOrder(l: Link, id: uint32, data: bytes)
    requires InOrder(l, id) && Sendable(data)
    ensures InOrder(Send(l, id, data), id)
  {
    hide Chunks;
    hide Rest;
    hide FifoEntry;
    hide Frames;
    hide Split;
    hide EncodeAll;
    hide DataFor;
    var msgs, c := At(l.sent, id), CursorOf(l, id);
    RestSend(id, msgs, c, data);
    FramesOfSendable(id, data);
    var flying, more := EncodeAll(Rest(id, msgs, c)), EncodeAll(Frames(id, data));
    EncodeAllConcat(Rest(id, msgs, c), Frames(id, data));
    assert EncodeAll(Rest(id, msgs + [data], c)) == flying + more;
    assert flying <= flying + more;
    SameEntry(msgs, data, c);
  }

  /** A further message does not change what there is of those before. */
  lemma SameEntry(msgs: seq<bytes>, data: bytes, c: Cursor)
    requires AllSendable(msgs) && ValidCursor(msgs, c) && Sendable(data)
    requires ValidCursor(msgs + [data], c)
    ensures FifoEntry(msgs + [data], c) == FifoEntry(msgs, c) && (msgs + [data])[..c.done] == msgs[..c.done]
  {
    hide Chunks;
  }

  lemma BreakKeepsInv(l: Link, id: uint32, n: nat)
    requires Inv(l) && id != 0
    ensures Inv(Break(l, id, n))
  {
    hide Rest;
    hide Chunks;
    hide Encoded;
    var l' := Break(l, id, n);
    assert At(l'.wire, 0) == At(l.wire, 0);
    forall i: uint32 | i != 0
      ensures InOrder(l', i)
    {
      assert InOrder(l, i);
    }
  }

  lemma SendKeepsInv(l: Link, id: uint32, data: bytes)
    requires Inv(l) && id != 0 && Sendable(data)
    ensures Inv(Send(l, id, data))
  {
    hide Rest;
    hide Chunks;
    hide Frames;
    hide EncodeAll;
    hide FifoEntry;
    var l' := Send(l, id, data);
    assert At(l'.wire, 0) == At(l.wire, 0);
    forall i: uint32 | i != 0
      ensures InOrder(l', i)
    {
      assert InOrder(l, i);
      if i == id {
        SendInOrder(l, id, data);
      }
    }
  }

  lemma PingKeepsInv(l: Link)
    requires Inv(l)
    ensures Inv(Ping(l))
  {
    hide Encoded;
    forall i: uint32 | i != 0
      ensures InOrder(Ping(l), i)
    {
      assert InOrder(l, i);
    }
  }

  /** The first frame in flight is the one at the cursor. */
  lemma HeadOfWire(l: Link, id: uint32)
    requires InOrder(l, id) && At(l.wire, id) != []
    ensures var msgs, c := At(l.sent, id), CursorOf(l, id);
            && c.done < |msgs| && ValidCursor(msgs, Next(msgs, c))
            && DecodeFrame(At(l.wire, id)[0]) == Decoded(FrameAt(id, msgs[c.done], c.part))
            && At(l.wire, id)[1..] <= EncodeAll(Rest(id, msgs, Next(msgs, c)))
            && (id !in l.cut ==> At(l.wire, id)[1..] == EncodeAll(Rest(id, msgs, Next(msgs, c))))
  {
    hide Encoded;
    hide DecodeFrame;
    hide Chunks;
    var msgs, c := At(l.sent, id), CursorOf(l, id);
    assert c.done < |msgs|;
    RestHead(id, msgs, c);
    FramesOfSendable(id, msgs[c.done]);
    FrameSizes(id, msgs[c.done], c.part);
    assert At(l.wire, id)[0] == Encoded(FrameAt(id, msgs[c.done], c.part));
  }

  /** What comes out of the receiver when the frame at the cursor arrives. */
  function Completed(id: uint32, msgs: seq<bytes>, c: Cursor): seq<Message>
    requires c.done < |msgs|
  {
    if Next(msgs, c).done > c.done then [Message(id, msgs[c.done])] else []
  }

  lemma DeliverResult(l: Link, id: uint32)
    requires id != 0 && InOrder(l, id) && At(l.wire, id) != []
    ensures var msgs, c := At(l.sent, id), CursorOf(l, id);
            var l' := Deliver(l, id);
            && c.done < |msgs| && ValidCursor(msgs, Next(msgs, c))
            && l' == l.(wire := l.wire[id := At(l.wire, id)[1..]],
                        cursor := l.cursor[id := Next(msgs, c)],
                        table := SetEntry(l.table, id, FifoEntry(msgs, Next(msgs, c))),
                        inbox := l.inbox + Completed(id, msgs, c))
            && At(l'.wire, id) <= EncodeAll(Rest(id, msgs, Next(msgs, c)))
            && (id !in l.cut ==> At(l'.wire, id) == EncodeAll(Rest(id, msgs, Next(msgs, c))))
  {
    hide DecodeFrame;
    hide AcceptAt;
    hide Chunks;
    hide Rest;
    HeadOfWire(l, id);
    var msgs, c := At(l.sent, id), CursorOf(l, id);
    FifoStep(id, msgs, c);
  }

  lemma DeliverInOrder(l: Link, id: uint32)
    requires id != 0 && InOrder(l, id) && At(l.wire, id) != []
    ensures InOrder(Deliver(l, id), id)
  {
    hide Deliver;
    hide Chunks;
    hide Rest;
    hide EncodeAll;
    hide FifoEntry;
    hide Next;
    DeliverResult(l, id);
    var l' := Deliver(l, id);
    var msgs, c := At(l.sent, id), CursorOf(l, id);
    assert l'.taken + l'.inbox == (l.taken + l.inbox) + Completed(id, msgs, c);
    DataForAppend(l.taken + l.inbox, Completed(id, msgs, c), id);
    NextDone(msgs, c);
    OneMore(id, msgs, c.done, Next(msgs, c).done);
    hide DataFor;
  }

  lemma NextDone(msgs: seq<bytes>, c: Cursor)
    requires c.done < |msgs|
    ensures c.done <= Next(msgs, c).done <= c.done + 1
  {
  }

  lemma DeliverElsewhere(l: Link, id: uint32, i: uint32)
    requires id != 0 && InOrder(l, id) && At(l.wire, id) != [] && i != 0 && i != id && InOrder(l, i)
    ensures InOrder(Deliver(l, id), i)
  {
    hide Deliver;
    hide Chunks;
    hide Rest;
    hide EncodeAll;
    hide FifoEntry;
    hide DataFor;
    hide Completed;
    hide Next;
    hide AllSendable;
    hide ValidCursor;
    DeliverResult(l, id);
    var l' := Deliver(l, id);
    var msgs, c := At(l.sent, id), CursorOf(l, id);
    assert l'.taken + l'.inbox == (l.taken + l.inbox) + Completed(id, msgs, c);
    CompletedElsewhere(l.taken + l.inbox, id, msgs, c, i);
  }

  lemma CompletedElsewhere(out: seq<Message>, id: uint32, msgs: seq<bytes>, c: Cursor, i: uint32)
    requires c.done < |msgs| && i != id
    ensures DataFor(out + Completed(id, msgs, c), i) == DataFor(out, i)
  {
    DataForAppend(out, Completed(id, msgs, c), i);
    assert DataFor(Completed(id, msgs, c), i) == [];
  }

  lemma DeliverKeepsInv(l: Link, id: uint32)
    requires Inv(l)
    ensures Inv(Deliver(l, id))
  {
    hide Deliver;
    hide Rest;
    hide Chunks;
    hide Encoded;
    var l' := Deliver(l, id);
    if At(l.wire, id) == [] {
      DeliverNothing(l, id);
    } else if id == 0 {
      DeliverPing(l);
      forall i: uint32 | i != 0
        ensures InOrder(l', i)
      {
        assert InOrder(l, i);
      }
    } else {
      assert InOrder(l, id);
      forall i: uint32 | i != 0
        ensures InOrder(l', i)
      {
        assert InOrder(l, i);
        if i == id {
          DeliverInOrder(l, id);
        } else {
          DeliverElsewhere(l, id, i);
        }
      }
      DeliverResult(l, id);
      assert At(l'.wire, 0) == At(l.wire, 0);
    }
  }

  lemma DeliverNothing(l: Link, id: uint32)
    requires At(l.wire, id) == []
    ensures Deliver(l, id) == l
  {
  }

  lemma DeliverPing(l: Link)
    requires At(l.wire, 0) != [] && At(l.wire, 0)[0] == Encoded(Frame(0, 0, 1, PING))
    ensures var l' := Deliver(l, 0);
            && l'.wire == l.wire[0 := At(l.wire, 0)[1..]] && l'.table == l.table && l'.inbox == l.inbox
            && l'.sent == l.sent && l'.taken == l.taken && l'.cut == l.cut
            && forall i: uint32 :: i != 0 ==> CursorOf(l', i) == CursorOf(l, i)
  {
    hide Encoded;
    hide DecodeFrame;
    var f := Frame(0, 0, 1, PING);
    DecodeFitting(f, []);
    assert Encoded(f) + [] == Encoded(f);
  }

  lemma TakeKeepsInv(l: Link)
    requires Inv(l) && l.inbox != []
    ensures Inv(Take(l))
  {
    hide Rest;
    hide Chunks;
    var l' := Take(l);
    assert l'.taken + l'.inbox == l.taken + l.inbox;
    forall i: uint32 | i != 0
      ensures InOrder(l', i)
    {
      assert InOrder(l, i);
    }
  }

  /** The message taken next is the next one sent on its ID. */
  lemma TakenNext(l: Link)
    requires Inv(l) && l.inbox != []
    ensures var m := l.inbox[0];
            var n := TakenOn(l, m.requestID);
            && m.requestID != 0 && n < |At(l.sent, m.requestID)| && At(l.sent, m.requestID)[n] == m.data
            && TakenOn(Take(l), m.requestID) == n + 1
            && forall i: uint32 :: i != m.requestID ==> TakenOn(Take(l), i) == TakenOn(l, i)
  {
    hide Rest;
    hide Chunks;
    var m := l.inbox[0];
    var id := m.requestID;
    assert InOrder(l, id);
    assert l.taken + l.inbox == (l.taken + [m]) + l.inbox[1..];
    DataForAppend(l.taken + [m], l.inbox[1..], id);
    DataForAppend(l.taken, [m], id);
    DataForOne(id, m.data);
    var taken := DataFor(l.taken, id);
    assert (taken + [m.data])[|taken|] == m.data;
    forall i: uint32 | i != id
      ensures TakenOn(Take(l), i) == TakenOn(l, i)
    {
      DataForAppend(l.taken, [m], i);
      assert DataFor([m], i) == [];
    }
  }

  /** What has been taken on an ID is the first part of what was sent on it. */
  lemma TakenWithinSent(l: Link, id: uint32)
    requires Inv(l) && id != 0
    ensures DataFor(l.taken, id) <= At(l.sent, id)
  {
    assert InOrder(l, id);
    DataForAppend(l.taken, l.inbox, id);
  }

  /** With nothing in flight and nothing queued, every message sent has been taken, unless the ID was cut. */
  lemma QuietMeansAllTaken(l: Link, id: uint32)
    requires Inv(l) && id != 0 && At(l.wire, id) == [] && l.inbox == [] && id !in l.cut
    ensures TakenOn(l, id) == |At(l.sent, id)|
  {
    hide Chunks;
    assert InOrder(l, id);
    var msgs, c := At(l.sent, id), CursorOf(l, id);
    if c.done < |msgs| {
      RestHead(id, msgs, c);
    }
    assert l.taken + l.inbox == l.taken;
  }
}
