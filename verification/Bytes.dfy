/** Fixed-width integers, byte strings and the small sequence vocabulary shared by the model. */
module Bytes {

  datatype Option<+T> = None | Some(value: T)

  const TWO32: int := 0x1_0000_0000

  type byte = b: int | 0 <= b < 256
  type uint32 = n: int | 0 <= n < 0x1_0000_0000
  type bytes = seq<byte>

  /** Big-endian order, as binary.BigEndian and DataView use it. */
  function PutUint32(v: uint32): (r: bytes)
    ensures |r| == 4
  {
    [v / 0x100 / 0x100 / 0x100, v / 0x100 / 0x100 % 0x100, v / 0x100 % 0x100, v % 0x100]
  }

  function Uint32(b: bytes): uint32
    requires |b| == 4
  {
    var b0: int, b1: int, b2: int, b3: int := b[0], b[1], b[2], b[3];
    ((b0 * 0x100 + b1) * 0x100 + b2) * 0x100 + b3
  }

  lemma Uint32OfPut(v: uint32)
    ensures Uint32(PutUint32(v)) == v
  {
    var w := v / 0x100;
    var x := w / 0x100;
    assert v == w * 0x100 + v % 0x100 && w == x * 0x100 + w % 0x100 && x == x / 0x100 * 0x100 + x % 0x100;
  }

  lemma PutOfUint32(b: bytes)
    requires |b| == 4
    ensures PutUint32(Uint32(b)) == b
  {
    var b0: int, b1: int, b2: int := b[0], b[1], b[2];
    var v := Uint32(b);
    assert v / 0x100 == (b0 * 0x100 + b1) * 0x100 + b2;
    assert v / 0x100 / 0x100 == b0 * 0x100 + b1;
  }

  /** The list without its last element, for a concatenation. */
  lemma InitOfAppend<T>(a: seq<T>, b: seq<T>)
    requires b != []
    ensures (a + b)[..|a + b| - 1] == a + b[..|b| - 1] && (a + b)[|a + b| - 1] == b[|b| - 1]
  {
  }

  lemma TailOfSlice<T>(s: seq<T>, at: nat, tail: seq<T>)
    requires at < |s|
    ensures (s[at..] + tail)[0] == s[at] && (s[at..] + tail)[1..] == s[at + 1..] + tail
  {
  }

  /** All the bytes of a list of byte strings, in order. */
  function Flatten(ss: seq<bytes>): bytes
  {
    if ss == [] then [] else Flatten(ss[..|ss| - 1]) + ss[|ss| - 1]
  }

  lemma FlattenAppend(a: seq<bytes>, b: seq<bytes>)
    ensures Flatten(a + b) == Flatten(a) + Flatten(b)
  {
    if b == [] {
      assert a + b == a;
    } else {
      InitOfAppend(a, b);
      FlattenAppend(a, b[..|b| - 1]);
    }
  }

  /** The entry of a table of lists; a key that was never stored has the empty list. */
  function At<T>(m: map<uint32, seq<T>>, k: uint32): seq<T>
  {
    if k in m then m[k] else []
  }
}
