/**
 A link that carries TCP messages: each is printed, sent on the request ID it names, and
 parsed again by the consumer. JSON is a printer and a parser that undoes it for what the proxies post.
 */
module Pipe {
  import opened Bytes
  import opened Framing
  import opened TcpProxy
  import L = Link

  datatype Codec = Codec(marshal: TCPMessage -> bytes, unmarshal: bytes -> Option<TCPMessage>)

  /** What the proxies post: at most a read buffer of data, and an address or error text no longer. */
  predicate Postable(m: TCPMessage)
  {
    match m
    case Connect(_, address) => |address| <= READ_BUFFER
    case Data(_, data) => 0 < |data| <= READ_BUFFER
    case Disconnect(_) => true
    case Error(_, text) => |text| <= READ_BUFFER
    case Unknown(_) => false
  }

  ghost predicate AllPostable(ms: seq<TCPMessage>)
  {
    forall i :: 0 <= i < |ms| ==> Postable(ms[i])
  }

  ghost predicate Lawful(c: Codec)
  {
    forall m :: Postable(m) ==> c.unmarshal(c.marshal(m)) == Some(m) && Sendable(c.marshal(m))
  }

  /** `log` is history: the messages posted on each ID. */
  datatype Pipe = Pipe(link: L.Link, log: map<uint32, seq<TCPMessage>>)

  function Empty(): Pipe
  {
    Pipe(L.Empty(), map[])
  }

  function Post(c: Codec, p: Pipe, m: TCPMessage): Pipe
  {
    var id := m.requestID;
    Pipe(L.Send(p.link, id, c.marshal(m)), p.log[id := At(p.log, id) + [m]])
  }

  function PostAll(c: Codec, p: Pipe, ms: seq<TCPMessage>): Pipe
  {
    if ms == [] then p else Post(c, PostAll(c, p, ms[..|ms| - 1]), ms[|ms| - 1])
  }

  function Break(p: Pipe, id: uint32, n: nat): Pipe
  {
    p.(link := L.Break(p.link, id, n))
  }

  function Printed(c: Codec, ms: seq<TCPMessage>): seq<bytes>
  {
    seq(|ms|, i requires 0 <= i < |ms| => c.marshal(ms[i]))
  }

  /** How many messages of the ID the consumer has taken. */
  function TakenOn(p: Pipe, id: uint32): nat
  {
    L.TakenOn(p.link, id)
  }

  ghost predicate OnlyOn(id: uint32, ms: seq<TCPMessage>)
  {
    forall i :: 0 <= i < |ms| ==> ms[i].requestID == id
  }

  ghost predicate Logged(c: Codec, p: Pipe, id: uint32)
  {
    At(p.link.sent, id) == Printed(c, At(p.log, id)) && OnlyOn(id, At(p.log, id)) && AllPostable(At(p.log, id))
  }

  ghost predicate Inv(c: Codec, p: Pipe)
  {
    L.Inv(p.link) && forall id: uint32 :: Logged(c, p, id)
  }

  /** The messages the consumer has taken on the ID. */
  function TakenLog(p: Pipe, id: uint32): seq<TCPMessage>
  {
    if TakenOn(p, id) <= |At(p.log, id)| then At(p.log, id)[..TakenOn(p, id)] else At(p.log, id)
  }

  lemma TakenWithinLog(c: Codec, p: Pipe, id: uint32)
    requires Inv(c, p) && id != 0
    ensures TakenOn(p, id) <= |At(p.log, id)|
  {
    assert Logged(c, p, id);
    L.TakenWithinSent(p.link, id);
    assert |At(p.link.sent, id)| == |At(p.log, id)|;
  }

  /** Posting on an ID extends its log, leaves the other logs and does not change what was taken. */
  ghost predicate Extends(p: Pipe, p': Pipe, id: uint32, ms: seq<TCPMessage>)
  {
    && At(p'.log, id) == At(p.log, id) + ms
    && (forall i: uint32 :: i != id ==> At(p'.log, i) == At(p.log, i))
    && (forall i: uint32 :: TakenOn(p', i) == TakenOn(p, i))
  }

  lemma PostKeepsInv(c: Codec, p: Pipe, m: TCPMessage)
    requires Lawful(c) && Inv(c, p) && m.requestID != 0 && Postable(m)
    ensures Inv(c, Post(c, p, m)) && Extends(p, Post(c, p, m), m.requestID, [m])
  {
    hide Sendable;
    hide L.Inv;
    var p' := Post(c, p, m);
    assert Sendable(c.marshal(m));
    L.SendKeepsInv(p.link, m.requestID, c.marshal(m));
    forall id: uint32
      ensures Logged(c, p', id)
    {
      assert Logged(c, p, id);
    }
  }

  lemma {:induction false} PostAllKeepsInv(c: Codec, p: Pipe, id: uint32, ms: seq<TCPMessage>)
    requires Lawful(c) && Inv(c, p) && id != 0 && OnlyOn(id, ms) && AllPostable(ms)
    ensures Inv(c, PostAll(c, p, ms)) && Extends(p, PostAll(c, p, ms), id, ms)
  {
    hide Post;
    hide Lawful;
    hide Inv;
    if ms != [] {
      var n := |ms| - 1;
      PostAllKeepsInv(c, p, id, ms[..n]);
      PostKeepsInv(c, PostAll(c, p, ms[..n]), ms[n]);
      assert ms == ms[..n] + [ms[n]];
    }
  }

  /** Frames on their way and heartbeats change neither logs nor what was taken. */
  lemma TransportKeepsInv(c: Codec, p: Pipe, id: uint32)
    requires Inv(c, p)
    ensures var d, g := p.(link := L.Deliver(p.link, id)), p.(link := L.Ping(p.link));
            Inv(c, d) && Inv(c, g) && Extends(p, d, id, []) && Extends(p, g, id, [])
  {
    L.DeliverKeepsInv(p.link, id);
    L.PingKeepsInv(p.link);
    SameHistory(p.link, id);
    hide L.Deliver;
    hide L.Ping;
    hide L.Inv;
    var d, g := p.(link := L.Deliver(p.link, id)), p.(link := L.Ping(p.link));
    forall i: uint32
      ensures Logged(c, d, i) && Logged(c, g, i)
    {
      assert Logged(c, p, i);
    }
  }

  lemma BreakKeepsInv(c: Codec, p: Pipe, id: uint32, n: nat)
    requires Inv(c, p) && id != 0
    ensures Inv(c, Break(p, id, n)) && Extends(p, Break(p, id, n), id, [])
  {
    L.BreakKeepsInv(p.link, id, n);
    hide L.Inv;
    forall i: uint32
      ensures Logged(c, Break(p, id, n), i)
    {
      assert Logged(c, p, i);
    }
  }

  lemma SameHistory(l: L.Link, id: uint32)
    ensures var d, g := L.Deliver(l, id), L.Ping(l);
            d.sent == g.sent == l.sent && d.taken == g.taken == l.taken
  {
  }

  /** Taking a message brings out the next one posted on its ID. */
  lemma TakeNext(c: Codec, p: Pipe)
    requires Lawful(c) && Inv(c, p) && p.link.inbox != []
    ensures var p' := p.(link := L.Take(p.link));
            var id := p.link.inbox[0].requestID;
            var n := TakenOn(p, id);
            && Inv(c, p') && id != 0 && n < |At(p.log, id)|
            && c.unmarshal(p.link.inbox[0].data) == Some(At(p.log, id)[n])
            && At(p.log, id)[n].requestID == id
            && TakenLog(p', id) == TakenLog(p, id) + [At(p.log, id)[n]]
            && forall i: uint32 :: i != id ==> TakenLog(p', i) == TakenLog(p, i) && TakenOn(p', i) == TakenOn(p, i)
  {
    hide L.Inv;
    hide Sendable;
    var p' := p.(link := L.Take(p.link));
    var id := p.link.inbox[0].requestID;
    L.TakenNext(p.link);
    L.TakeKeepsInv(p.link);
    assert Logged(c, p, id);
    forall i: uint32
      ensures Logged(c, p', i)
    {
      assert Logged(c, p, i);
    }
  }

  // ---- a lawful codec exists

  function Tag(m: TCPMessage): byte
  {
    match m
    case Connect(_, _) => 0
    case Data(_, _) => 1
    case Disconnect(_) => 2
    case Error(_, _) => 3
    case Unknown(_) => 4
  }

  function CharOf(b: bytes): char
    requires |b| == 4
  {
    var k := Uint32(b);
    if k < 0xD800 || 0xE000 <= k < 0x11_0000 then k as char else ' '
  }

  lemma CharOfPut(c: char)
    ensures CharOf(PutUint32(c as int)) == c
  {
    Uint32OfPut(c as int);
  }

  /** Four bytes for every character. */
  function TextBytes(text: string): (b: bytes)
    ensures |b| == 4 * |text|
  {
    if text == "" then [] else TextBytes(text[..|text| - 1]) + PutUint32(text[|text| - 1] as int)
  }

  function TextOf(b: bytes): string
  {
    if |b| < 4 then "" else TextOf(b[..|b| - 4]) + [CharOf(b[|b| - 4..])]
  }

  lemma {:induction false} TextOfTextBytes(text: string)
    ensures TextOf(TextBytes(text)) == text
  {
    if text != "" {
      var n := |text| - 1;
      TextOfTextBytes(text[..n]);
      hide CharOf;
      hide PutUint32;
      assert TextBytes(text)[..4 * n] == TextBytes(text[..n]);
      assert TextBytes(text)[4 * n..] == PutUint32(text[n] as int);
      CharOfPut(text[n]);
      assert text == text[..n] + [text[n]];
    }
  }

  function Body(m: TCPMessage): bytes
  {
    match m
    case Connect(_, address) => TextBytes(address)
    case Data(_, data) => data
    case Error(_, text) => text
    case _ => []
  }

  function Rebuilt(tag: byte, id: uint32, body: bytes): TCPMessage
  {
    if tag == 0 then Connect(id, TextOf(body))
    else if tag == 1 then Data(id, body)
    else if tag == 2 then Disconnect(id)
    else if tag == 3 then Error(id, body)
    else Unknown(id)
  }

  function Marshal(m: TCPMessage): bytes
  {
    [Tag(m)] + PutUint32(m.requestID) + Body(m)
  }

  function Unmarshal(b: bytes): Option<TCPMessage>
  {
    if |b| < 5 then None else Some(Rebuilt(b[0], Uint32(b[1..5]), b[5..]))
  }

  lemma UnmarshalUndoesMarshal(m: TCPMessage)
    ensures Unmarshal(Marshal(m)) == Some(m) && (Postable(m) ==> Sendable(Marshal(m)))
  {
    hide Chunks;
    hide TextOf;
    hide TextBytes;
    hide Uint32;
    hide PutUint32;
    var b := Marshal(m);
    assert b[1..5] == PutUint32(m.requestID) && b[5..] == Body(m);
    Uint32OfPut(m.requestID);
    ChunksCount(b);
    if m.Connect? {
      TextOfTextBytes(m.address);
    }
  }

  /** The assumption on the codec can be met. */
  lemma LawfulCodecExists()
    ensures exists c :: Lawful(c)
  {
    hide Sendable;
    hide Marshal;
    hide Unmarshal;
    var c := Codec(m => Marshal(m), b => Unmarshal(b));
    forall m: TCPMessage | Postable(m)
      ensures c.unmarshal(c.marshal(m)) == Some(m) && Sendable(c.marshal(m))
    {
      UnmarshalUndoesMarshal(m);
    }
    assert Lawful(c);
  }
}
