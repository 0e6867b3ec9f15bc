/**
 The client side of the UDP proxy (internal/proxy/udp.go): a request ID for every local address that sends,
 and the way back from an ID to the address, by a search through the table in any order.
 */
module UdpProxy {
  import opened Bytes

  type Address = string

  /** The session map, and the 32-bit counter. */
  datatype Table = Table(sessions: map<Address, nat>, counter: nat)

  const EMPTY := Table(map[], 0)

  /** What a 32-bit counter shows after k steps from 0. */
  function Wrapped(k: nat): nat
  {
    k % TWO32
  }

  lemma WrappedApart(i: nat, j: nat)
    requires 1 <= i <= TWO32 && 1 <= j <= TWO32 && Wrapped(i) == Wrapped(j)
    ensures i == j
  {
  }

  lemma WrappedRound()
    ensures Wrapped(0) == 0 && Wrapped(1) == Wrapped(TWO32 + 1)
    ensures forall k: nat :: k < TWO32 ==> Wrapped(k) == k
  {
  }

  /** A datagram from this address has come in. */
  function Seen(t: Table, a: Address): Table
  {
    if a in t.sessions then t
    else
      var id := Wrapped(t.counter + 1);
      Table(t.sessions[a := id], id)
  }

  function Run(addresses: seq<Address>): Table
  {
    if addresses == [] then EMPTY else Seen(Run(addresses[..|addresses| - 1]), addresses[|addresses| - 1])
  }

  class UDPProxy {
    var sessions: map<Address, nat>
    var requestIDCounter: nat

    function State(): Table
      reads this
    {
      Table(sessions, requestIDCounter)
    }

    constructor ()
      ensures State() == EMPTY
    {
      sessions, requestIDCounter := map[], 0;
    }

    /** The ID under which a datagram from `remote` goes to the host. */
    method ReadFromUDP(remote: Address) returns (requestID: nat)
      modifies this
      ensures State() == Seen(old(State()), remote)
      ensures remote in sessions && requestID == sessions[remote]
    {
      if remote in sessions {
        return sessions[remote];
      }
      requestIDCounter := Wrapped(requestIDCounter + 1);
      requestID := requestIDCounter;
      sessions := sessions[remote := requestID];
    }

    /** The address that a reply goes to; the search ends with the first session that fits. */
    method ClientFor(requestID: nat) returns (r: Option<Address>)
      ensures match r
              case Some(a) => a in sessions && sessions[a] == requestID
              case None => forall a :: a in sessions ==> sessions[a] != requestID
    {
      var todo := sessions.Keys;
      while todo != {}
        invariant todo <= sessions.Keys
        invariant forall a :: a in sessions && a !in todo ==> sessions[a] != requestID
        decreases |todo|
      {
        var key :| key in todo;
        if sessions[key] == requestID {
          return Some(key);
        }
        todo := todo - {key};
      }
      return None;
    }
  }

  /** The addresses in the order in which they first came up. */
  function FirstSeen(addresses: seq<Address>): (order: seq<Address>)
    ensures forall a :: a in order <==> a in addresses
    ensures forall i, j :: 0 <= i < j < |order| ==> order[i] != order[j]
  {
    if addresses == [] then []
    else
      var n := |addresses| - 1;
      var before := FirstSeen(addresses[..n]);
      if addresses[n] in before then before else before + [addresses[n]]
  }

  ghost predicate Numbered(t: Table, order: seq<Address>)
  {
    && t.counter == Wrapped(|order|)
    && (forall a :: a in t.sessions <==> a in order)
    && (forall i :: 0 <= i < |order| ==> t.sessions[order[i]] == Wrapped(i + 1))
  }

  /** The k-th address to come up has the ID k, as far as 32 bits show it, and keeps it. */
  lemma {:induction false} NumberedInOrder(addresses: seq<Address>)
    ensures Numbered(Run(addresses), FirstSeen(addresses))
  {
    hide Wrapped;
    if addresses == [] {
      WrappedRound();
    } else {
      var n := |addresses| - 1;
      NumberedInOrder(addresses[..n]);
      Successor(|FirstSeen(addresses[..n])|);
    }
  }

  lemma Successor(k: nat)
    ensures Wrapped(Wrapped(k) + 1) == Wrapped(k + 1)
  {
  }

  ghost predicate OneEach(t: Table)
  {
    forall a, b :: a in t.sessions && b in t.sessions && t.sessions[a] == t.sessions[b] ==> a == b
  }

  /** No two addresses share an ID, exactly as long as the counter has not come round to 1 again. */
  lemma OneEachExactly(addresses: seq<Address>)
    ensures OneEach(Run(addresses)) <==> |FirstSeen(addresses)| <= TWO32
  {
    hide Wrapped;
    NumberedInOrder(addresses);
    var t, order := Run(addresses), FirstSeen(addresses);
    hide Run;
    if |order| <= TWO32 {
      forall a, b | a in t.sessions && b in t.sessions && t.sessions[a] == t.sessions[b]
        ensures a == b
      {
        var i :| 0 <= i < |order| && order[i] == a;
        var j :| 0 <= j < |order| && order[j] == b;
        WrappedApart(i + 1, j + 1);
      }
    } else {
      assert t.sessions[order[0]] == Wrapped(1) && t.sessions[order[TWO32]] == Wrapped(TWO32 + 1);
      WrappedRound();
    }
  }

  /**
   As long as there are fewer than 2^32 of them, every ID from 1 to the number of addresses belongs to exactly
   one, and whatever the order of the search, a reply goes to the address that has its ID and nowhere else.
   */
  lemma RepliesFindTheirClient(addresses: seq<Address>, id: nat, r: Option<Address>)
    requires |FirstSeen(addresses)| < TWO32
    requires var t := Run(addresses);
             match r
             case Some(a) => a in t.sessions && t.sessions[a] == id
             case None => forall a :: a in t.sessions ==> t.sessions[a] != id
    ensures r == if 1 <= id <= |FirstSeen(addresses)| then Some(FirstSeen(addresses)[id - 1]) else None
  {
    WrappedRound();
    hide Wrapped;
    NumberedInOrder(addresses);
    var t, order := Run(addresses), FirstSeen(addresses);
    hide Run;
    if r.Some? {
      var i :| 0 <= i < |order| && order[i] == r.value;
      assert id == i + 1;
    }
    assert 1 <= id <= |order| ==> t.sessions[order[id - 1]] == id;
  }
}
