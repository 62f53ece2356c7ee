/** Bytes and the sequence facts that several parts of the project need. */
module Bytes {

  datatype Option<T> = None | Some(value: T)

  type byte = b: int | 0 <= b < 256

  /** The n bytes of s from a on; empty when s does not reach that far. */
  function Slice(s: seq<byte>, a: nat, n: nat): (r: seq<byte>)
    ensures a + n <= |s| ==> r == s[a..a + n]
  {
    if a + n <= |s| then s[a..a + n] else []
  }

  function Min(a: int, b: int): (m: int)
    ensures m <= a && m <= b && (m == a || m == b)
  {
    if a <= b then a else b
  }

  lemma {:induction false} Assoc(a: seq<byte>, b: seq<byte>, c: seq<byte>)
    ensures a + (b + c) == a + b + c
  {
  }

  /** The parts one after the other. */
  function Flat(parts: seq<seq<byte>>): seq<byte> {
    if parts == [] then [] else Flat(parts[..|parts| - 1]) + parts[|parts| - 1]
  }

  /** `memcpy` into an array. */
  method CopyInto(c: array<byte>, at: nat, data: seq<byte>)
    requires at + |data| <= c.Length
    modifies c
    ensures c[..] == old(c[..at]) + data + old(c[at + |data|..])
  {
    var i := 0;
    while i < |data|
      invariant 0 <= i <= |data|
      invariant c[..] == old(c[..at]) + data[..i] + old(c[at + i..])
    {
      c[at + i] := data[i];
      i := i + 1;
    }
    assert data[..i] == data;
  }
}
