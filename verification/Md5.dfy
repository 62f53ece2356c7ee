/** The streaming MD5 of apr-util/crypto/apr_md5.c, with any block transform. */
module Md5 {
  import opened Bytes
  import opened Digest

  datatype State = State(a: word, b: word, c: word, d: word)

  const INIT := State(0x67452301, 0xefcdab89, 0x98badcfe, 0x10325476)

  function Encode(s: State): seq<byte> {
    LowFirst(s.a) + LowFirst(s.b) + LowFirst(s.c) + LowFirst(s.d)
  }

  /**
    The digest of a whole message (section 3 of RFC 1321): fold the transform over the padded message, whose
    length in bits stands at its end, and write the four words down, the low byte of each first.
   */
  ghost predicate IsDigest(transform: (State, seq<byte>) -> State, msg: seq<byte>, digest: seq<byte>) {
    exists length, padded :: IsDigestBy(transform, msg, digest, length, padded)
  }

  ghost predicate IsDigestBy(transform: (State, seq<byte>) -> State, msg: seq<byte>, digest: seq<byte>,
                             length: seq<byte>, padded: seq<byte>)
  {
    && Pads(msg, length, padded) && LowValue(length) == 8 * |msg| % 0x1_0000_0000_0000_0000
    && Spells(digest, Fold(transform, INIT, padded))
  }

  predicate Spells(digest: seq<byte>, s: State) {
    && |digest| == 16
    && LowValue(digest[..4]) == s.a && LowValue(digest[4..8]) == s.b
    && LowValue(digest[8..12]) == s.c && LowValue(digest[12..]) == s.d
  }

  lemma {:induction false} EncodeSpells(s: State)
    ensures Spells(Encode(s), s)
  {
    WordBytes(s.a);
    WordBytes(s.b);
    WordBytes(s.c);
    WordBytes(s.d);
    var e := Encode(s);
    assert e[..4] == LowFirst(s.a) && e[4..8] == LowFirst(s.b) && e[8..12] == LowFirst(s.c) && e[12..] == LowFirst(s.d);
  }

  lemma {:induction false} SpellsUnique(d: seq<byte>, e: seq<byte>, s: State)
    requires Spells(d, s) && Spells(e, s)
    ensures d == e
  {
    LowUnique(d[..4], e[..4]);
    LowUnique(d[4..8], e[4..8]);
    LowUnique(d[8..12], e[8..12]);
    LowUnique(d[12..], e[12..]);
    assert d == d[..4] + d[4..8] + d[8..12] + d[12..] && e == e[..4] + e[4..8] + e[8..12] + e[12..];
  }

  // ----- The 32-bit index of the update loop

  /** Where the whole blocks end in an input, when idx bytes wait in the buffer. */
  function BlocksEnd(idx: nat, len: nat): int { (idx + len) / 64 * 64 - idx }

  /** The index can pass the last whole block by 63. */
  predicate NoWrap(idx: nat, len: nat) {
    idx + len >= 64 ==> BlocksEnd(idx, len) + 63 < 0x1_0000_0000
  }

  /** The test of the loop stops it after the last whole block exactly then. */
  lemma {:induction false} StopsIff(idx: nat, len: nat)
    requires idx < 64 <= idx + len && len < 0x1_0000_0000
    ensures (BlocksEnd(idx, len) + 63) % 0x1_0000_0000 >= len <==> NoWrap(idx, len)
  {
    var end := BlocksEnd(idx, len);
    assert len - 64 < end <= len;
    if end + 63 >= 0x1_0000_0000 {
      assert (end + 63) % 0x1_0000_0000 == end + 63 - 0x1_0000_0000;
    }
  }

  /**
    With one byte waiting, the longest input of 32 bits goes too far; with an empty buffer no input below 2^32
    does.
   */
  lemma {:induction false} WrapsWithOne(len: nat)
    requires len < 0x1_0000_0000
    ensures !NoWrap(1, 0xFFFF_FFFF) && NoWrap(0, len)
  {
    assert (1 + 0xFFFF_FFFF) / 64 * 64 == 0x1_0000_0000;
    assert len / 64 <= 0x3FF_FFFF;
  }

  /** An index at the start of a block, or at the end of the last. */
  ghost predicate OnBoundary(idx: nat, len: nat, i: nat) {
    i <= BlocksEnd(idx, len) && (idx + i) % 64 == 0
  }

  lemma {:induction false} FirstEnd(idx: nat, len: nat)
    requires idx < 64 <= idx + len
    ensures OnBoundary(idx, len, 64 - idx)
  {
  }

  /** What the test of the loop tells: another whole block, or less than one. */
  lemma {:induction false} BlockLeft(idx: nat, len: nat, i: nat)
    requires idx < 64 <= idx + len && len < 0x1_0000_0000 && NoWrap(idx, len) && OnBoundary(idx, len, i)
    ensures (i + 63) % 0x1_0000_0000 < len ==> i + 64 <= len && OnBoundary(idx, len, i + 64)
    ensures (i + 63) % 0x1_0000_0000 >= len ==> i <= len < i + 64
  {
    assert i + 63 < 0x1_0000_0000;
  }

  class Context {
    const transform: (State, seq<byte>) -> State
    var state: State
    var count0: word
    var count1: word
    var buffer: array<byte>
    ghost var msg: seq<byte>

    ghost predicate Valid()
      reads this, buffer
    {
      && buffer.Length == 64
      && CountIs(count0, count1, |msg|)
      && Consumed(transform, INIT, msg, state, buffer[..|msg| % 64])
    }

    /** `apr_md5_init`. */
    constructor (transform: (State, seq<byte>) -> State)
      ensures Valid() && fresh(buffer) && msg == [] && this.transform == transform
    {
      this.transform := transform;
      state, count0, count1 := INIT, 0, 0;
      buffer := new byte[64];
      msg := [];
    }

    /** Fill the buffer and transform it. */
    method FirstBlock(input: seq<byte>, idx: nat, ghost m: seq<byte>) returns (i: nat)
      requires buffer.Length == 64 && idx < 64 <= |input| + idx && Consumed(transform, INIT, m, state, buffer[..idx])
      modifies this`state, buffer
      ensures i == 64 - idx && Consumed(transform, INIT, m + input[..i], state, [])
    {
      i := 64 - idx;
      Fill(transform, INIT, m, state, buffer[..idx], input[..i]);
      CopyInto(buffer, idx, input[..i]);
      assert buffer[..] == old(buffer[..idx]) + input[..i];
      state := transform(state, buffer[..]);
    }

    method NextBlock(input: seq<byte>, i: nat, ghost m: seq<byte>)
      requires i + 64 <= |input| && Consumed(transform, INIT, m + input[..i], state, [])
      modifies this`state
      ensures Consumed(transform, INIT, m + input[..i + 64], state, [])
    {
      Block(transform, INIT, m + input[..i], state, input[i..i + 64]);
      assert m + input[..i] + input[i..i + 64] == m + input[..i + 64];
      state := transform(state, input[i..i + 64]);
    }

    /** Transform as many times as possible; the rest of the input starts at i. */
    method Blocks(input: seq<byte>, idx: nat, ghost m: seq<byte>) returns (i: nat)
      requires buffer.Length == 64 && idx < 64 <= |input| + idx && |input| < 0x1_0000_0000 && NoWrap(idx, |input|)
      requires Consumed(transform, INIT, m, state, buffer[..idx])
      modifies this`state, buffer
      ensures i <= |input| < i + 64
      ensures Consumed(transform, INIT, m + input[..i], state, [])
    {
      i := FirstBlock(input, idx, m);
      FirstEnd(idx, |input|);
      while (i + 63) % 0x1_0000_0000 < |input|
        invariant OnBoundary(idx, |input|, i) && Consumed(transform, INIT, m + input[..i], state, [])
        decreases |input| - i
      {
        BlockLeft(idx, |input|, i);
        NextBlock(input, i, m);
        i := i + 64;
      }
      BlockLeft(idx, |input|, i);
    }

    /** The number of bytes in the buffer, and the new count of bits. */
    method AddToCount(len: nat) returns (idx: nat)
      requires CountIs(count0, count1, |msg|) && len < 0x1_0000_0000
      modifies this`count0, this`count1
      ensures CountIs(count0, count1, |msg| + len) && idx == |msg| % 64
    {
      CountTellsFill(count0, count1, |msg|);
      CountAdds(count0, count1, |msg|, len);
      idx := count0 / 8 % 64;
      count0, count1 := LowCount(count0, len), HighCount(count0, count1, len);
    }

    /** `md5_update_buffer` */
    method Update(input: seq<byte>)
      requires Valid() && |input| < 0x1_0000_0000 && NoWrap(|msg| % 64, |input|)
      modifies this, buffer
      ensures Valid() && buffer == old(buffer) && msg == old(msg) + input
    {
      var idx := AddToCount(|input|);
      var i := 0;
      assert msg + input[..0] == msg;
      if |input| >= 64 - idx {
        i := Blocks(input, idx, msg);
        idx := 0;
      }
      BufferRest(idx, input, i, msg + input[..i]);
      assert msg + input[..i] + input[i..] == msg + input;
      msg := msg + input;
    }

    method BufferRest(idx: nat, input: seq<byte>, i: nat, ghost m: seq<byte>)
      requires buffer.Length == 64 && i <= |input| && idx + |input| - i < 64
      requires Consumed(transform, INIT, m, state, buffer[..idx])
      modifies buffer
      ensures Consumed(transform, INIT, m + input[i..], state, buffer[..|m + input[i..]| % 64])
    {
      var rest := input[i..];
      Wait(transform, INIT, m, state, buffer[..idx], rest);
      CopyInto(buffer, idx, rest);
      assert buffer[..idx + |rest|] == old(buffer[..idx]) + rest;
    }

    /** `apr_md5_final`: whatever the message was cut into, this is its digest. The context is cleared. */
    method Final() returns (digest: seq<byte>)
      requires Valid()
      modifies this, buffer
      ensures IsDigest(transform, old(msg), digest)
      ensures state == State(0, 0, 0, 0) && count0 == count1 == 0 && buffer == old(buffer)
      ensures forall i :: 0 <= i < buffer.Length ==> buffer[i] == 0
    {
      ghost var m, lo, hi := msg, count0, count1;
      var bits := LowFirst(count0) + LowFirst(count1);
      ghost var zeros := Pad();
      Update(bits);
      digest := Encode(state);
      FoldIsDigest(transform, m, lo, hi, zeros, msg, digest);
      Zeroize();
    }

    method Zeroize()
      modifies this`state, this`count0, this`count1, buffer
      ensures state == State(0, 0, 0, 0) && count0 == count1 == 0
      ensures forall i :: 0 <= i < buffer.Length ==> buffer[i] == 0
    {
      state, count0, count1 := State(0, 0, 0, 0), 0, 0;
      forall i | 0 <= i < buffer.Length {
        buffer[i] := 0;
      }
    }

    /** Pad out to 56 mod 64. */
    method Pad() returns (ghost zeros: nat)
      requires Valid()
      modifies this, buffer
      ensures Valid() && buffer == old(buffer)
      ensures zeros < 64 && (|old(msg)| + 1 + zeros) % 64 == 56 && msg == old(msg) + ([0x80] + Zeros(zeros))
    {
      CountTellsFill(count0, count1, |msg|);
      var idx := count0 / 8 % 64;
      var padLen := if idx < 56 then 56 - idx else 120 - idx;
      zeros := padLen - 1;
      PadFits(|msg|, zeros);
      Update([0x80] + Zeros(padLen - 1));
    }
  }

  lemma {:induction false} FoldIsDigest(transform: (State, seq<byte>) -> State, msg: seq<byte>, lo: word, hi: word,
                                        zeros: nat,
                     all: seq<byte>, digest: seq<byte>)
    requires CountIs(lo, hi, |msg|) && digest == Encode(Fold(transform, INIT, all))
    requires zeros < 64 && (|msg| + 1 + zeros) % 64 == 56
    requires all == msg + ([0x80] + Zeros(zeros)) + (LowFirst(lo) + LowFirst(hi))
    ensures IsDigest(transform, msg, digest)
  {
    PadsHere(msg, zeros, LowFirst(lo) + LowFirst(hi));
    CountBytes(lo, hi, |msg|);
    EncodeSpells(Fold(transform, INIT, all));
    assert IsDigestBy(transform, msg, digest, LowFirst(lo) + LowFirst(hi), all);
  }

  /** A message has one digest. */
  lemma {:induction false} DigestUnique(transform: (State, seq<byte>) -> State, msg: seq<byte>, d: seq<byte>,
                                        e: seq<byte>)
    requires IsDigest(transform, msg, d) && IsDigest(transform, msg, e)
    ensures d == e
  {
    var length, p :| IsDigestBy(transform, msg, d, length, p);
    var length', q :| IsDigestBy(transform, msg, e, length', q);
    LowUnique(length, length');
    PadsUnique(msg, length, p, q);
    SpellsUnique(d, e, Fold(transform, INIT, p));
  }

  /** Init, any updates, final: the cuts do not show in the digest. */
  method DigestOf(transform: (State, seq<byte>) -> State, parts: seq<seq<byte>>) returns (digest: seq<byte>)
    requires forall i :: 0 <= i < |parts| ==> |parts[i]| < 0x1_0000_0000 && NoWrap(|Flat(parts[..i])| % 64, |parts[i]|)
    ensures IsDigest(transform, Flat(parts), digest)
  {
    var ctx := new Context(transform);
    var i := 0;
    while i < |parts|
      invariant 0 <= i <= |parts| && ctx.Valid() && fresh(ctx) && fresh(ctx.buffer) && ctx.transform == transform
      invariant ctx.msg == Flat(parts[..i])
    {
      ctx.Update(parts[i]);
      assert parts[..i + 1][..i] == parts[..i];
      i := i + 1;
    }
    assert parts[..i] == parts;
    digest := ctx.Final();
  }
}
