/**
  The streaming SHA-1 of apr-util/crypto/apr_sha1.c, with any block transform, on machines of either
  byte order.
 */
module Sha1 {
  import opened Bytes
  import opened Digest

  datatype State = State(a: word, b: word, c: word, d: word, e: word)

  type Transform = (State, seq<word>) -> State

  const INIT := State(0x67452301, 0xefcdab89, 0x98badcfe, 0x10325476, 0xc3d2e1f0)

  function Encode(s: State): seq<byte> {
    HighFirst(s.a) + HighFirst(s.b) + HighFirst(s.c) + HighFirst(s.d) + HighFirst(s.e)
  }

  // ----- Byte order

  /** A word as the machine loads it from four bytes. */
  function Load(little: bool, b: seq<byte>): word
    requires |b| == 4
  {
    if little then Number(b[3], b[2], b[1], b[0]) else Number(b[0], b[1], b[2], b[3])
  }

  function Number(b3: int, b2: int, b1: int, b0: int): word
    requires 0 <= b3 < 256 && 0 <= b2 < 256 && 0 <= b1 < 256 && 0 <= b0 < 256
  {
    0x100_0000 * b3 + 0x1_0000 * b2 + 0x100 * b1 + b0
  }

  /** The four bytes the machine stores for a word. */
  function Store(little: bool, w: word): seq<byte> {
    if little then LowFirst(w) else HighFirst(w)
  }

  function Words(little: bool, b: seq<byte>): seq<word> {
    if |b| < 4 then [] else [Load(little, b[..4])] + Words(little, b[4..])
  }

  /** What `maybe_byte_reverse` makes of a sequence of bytes. */
  function Reversed(little: bool, b: seq<byte>): (r: seq<byte>)
    ensures |r| == |b|
  {
    if !little || |b| < 4 then b else [b[3], b[2], b[1], b[0]] + Reversed(little, b[4..])
  }

  lemma {:induction false} ReversedConcat(little: bool, a: seq<byte>, b: seq<byte>)
    requires |a| % 4 == 0
    ensures Reversed(little, a + b) == Reversed(little, a) + Reversed(little, b)
    decreases |a|
  {
    if a == [] {
      assert a + b == b;
    } else {
      assert (a + b)[4..] == a[4..] + b;
      ReversedConcat(little, a[4..], b);
    }
  }

  lemma {:induction false} AfterPart(d: seq<byte>, done: seq<byte>, was: seq<byte>, k: nat)
    requires |done| == k && k + 4 <= |was| && d == done + was[k..]
    ensures d[..k] == done && d[k + 4..] == was[k + 4..]
    ensures d[k] == was[k] && d[k + 1] == was[k + 1] && d[k + 2] == was[k + 2] && d[k + 3] == was[k + 3]
  {
  }

  lemma {:induction false} ReversedNext(was: seq<byte>, k: nat)
    requires k % 4 == 0 && k + 4 <= |was|
    ensures Reversed(true, was[..k + 4]) == Reversed(true, was[..k]) + [was[k + 3], was[k + 2], was[k + 1], was[k]]
  {
    var quad := was[k..k + 4];
    assert was[..k + 4] == was[..k] + quad;
    ReversedConcat(true, was[..k], quad);
    assert quad[4..] == [];
  }

  /** After `maybe_byte_reverse` the machine reads the words with the high byte first, whatever its byte order. */
  lemma {:induction false} ReversedReads(little: bool, b: seq<byte>)
    ensures Words(little, Reversed(little, b)) == Words(false, b)
    decreases |b|
  {
    if |b| >= 4 {
      var r := Reversed(little, b);
      ReversedReads(little, b[4..]);
      if little {
        assert r[..4] == [b[3], b[2], b[1], b[0]] && r[4..] == Reversed(little, b[4..]);
      }
    }
  }

  lemma {:induction false} StoreIsReversed(little: bool, w: word)
    ensures Store(little, w) == Reversed(little, HighFirst(w))
  {
    assert HighFirst(w)[4..] == [];
  }

  /** The transform of a block of bytes whose words have the high byte first (section 2 of RFC 3174). */
  function OnBytes(transform: Transform): (State, seq<byte>) -> State {
    (s, block) => transform(s, Words(false, block))
  }

  lemma {:induction false} WordsCount(b: seq<byte>)
    ensures |Words(false, b)| == |b| / 4
    decreases |b|
  {
    if |b| >= 4 {
      WordsCount(b[4..]);
    }
  }

  /** The words of a block are the numbers that its bytes stand for, four by four. */
  lemma {:induction false} WordsAre(b: seq<byte>, i: nat, at: nat)
    requires at == 4 * i && at + 4 <= |b|
    ensures |Words(false, b)| == |b| / 4 && Words(false, b)[i] == HighValue(b[at..at + 4])
    decreases i
  {
    WordsCount(b);
    if i == 0 {
      FourBytes(b[..4]);
      assert b[at..at + 4] == b[..4];
    } else {
      var rest := b[4..];
      WordsAre(rest, i - 1, at - 4);
      assert b[at..at + 4] == rest[at - 4..at];
      assert Words(false, b) == [Load(false, b[..4])] + Words(false, rest);
    }
  }

  lemma {:induction false} FourBytes(b: seq<byte>)
    requires |b| == 4
    ensures Load(false, b) == HighValue(b)
  {
    var one, two, three := b[..1], b[..2], b[..3];
    HighBefore([], b[0]);
    HighBefore(one, b[1]);
    HighBefore(two, b[2]);
    HighBefore(three, b[3]);
    assert [] + [b[0]] == one && one + [b[1]] == two && two + [b[2]] == three && three + [b[3]] == b;
    assert HighValue([]) == 0;
  }

  /**
    The digest of a whole message (sections 4 and 6.1 of RFC 3174): fold the transform over the padded message,
    whose length in bits stands at its end, and write the five words down, the high byte of each first.
   */
  ghost predicate IsDigest(transform: Transform, msg: seq<byte>, digest: seq<byte>) {
    exists length, padded :: IsDigestBy(transform, msg, digest, length, padded)
  }

  ghost predicate IsDigestBy(transform: Transform, msg: seq<byte>, digest: seq<byte>, length: seq<byte>,
                             padded: seq<byte>)
  {
    && Pads(msg, length, padded) && HighValue(length) == 8 * |msg| % 0x1_0000_0000_0000_0000
    && Spells(digest, Fold(OnBytes(transform), INIT, padded))
  }

  predicate Spells(digest: seq<byte>, s: State) {
    && |digest| == 20
    && HighValue(digest[..4]) == s.a && HighValue(digest[4..8]) == s.b && HighValue(digest[8..12]) == s.c
    && HighValue(digest[12..16]) == s.d && HighValue(digest[16..]) == s.e
  }

  lemma {:induction false} EncodeSpells(s: State)
    ensures Spells(Encode(s), s)
  {
    WordBytes(s.a);
    WordBytes(s.b);
    WordBytes(s.c);
    WordBytes(s.d);
    WordBytes(s.e);
    var e := Encode(s);
    assert e[..4] == HighFirst(s.a) && e[4..8] == HighFirst(s.b) && e[8..12] == HighFirst(s.c);
    assert e[12..16] == HighFirst(s.d) && e[16..] == HighFirst(s.e);
  }

  lemma {:induction false} SpellsUnique(d: seq<byte>, e: seq<byte>, s: State)
    requires Spells(d, s) && Spells(e, s)
    ensures d == e
  {
    HighUnique(d[..4], e[..4]);
    HighUnique(d[4..8], e[4..8]);
    HighUnique(d[8..12], e[8..12]);
    HighUnique(d[12..16], e[12..16]);
    HighUnique(d[16..], e[16..]);
    assert d == d[..4] + d[4..8] + d[8..12] + d[12..16] + d[16..];
    assert e == e[..4] + e[4..8] + e[8..12] + e[12..16] + e[16..];
  }

  lemma {:induction false} DigestUnique(transform: Transform, msg: seq<byte>, d: seq<byte>, e: seq<byte>)
    requires IsDigest(transform, msg, d) && IsDigest(transform, msg, e)
    ensures d == e
  {
    var length, p :| IsDigestBy(transform, msg, d, length, p);
    var length', q :| IsDigestBy(transform, msg, e, length', q);
    HighUnique(length, length');
    PadsUnique(msg, length, p, q);
    SpellsUnique(d, e, Fold(OnBytes(transform), INIT, p));
  }

  /** The first k bytes are reversed in their words, the others are as they were. */
  ghost predicate Halfway(was: seq<byte>, k: nat, done: seq<byte>, d: seq<byte>) {
    k <= |was| && |done| == k && d == done + was[k..] && done == Reversed(true, was[..k])
  }

  lemma {:induction false} ReversedAll(was: seq<byte>, done: seq<byte>, d: seq<byte>)
    requires Halfway(was, |was|, done, d)
    ensures d == Reversed(true, was)
  {
    assert was[..|was|] == was && was[|was|..] == [] && done + [] == done;
  }

  class Context {
    const transform: Transform
    const little: bool
    var digest: State
    var countLo: word
    var countHi: word
    var data: array<byte>
    var local: nat
    ghost var msg: seq<byte>

    ghost predicate Valid()
      reads this, data
    {
      && data.Length == 64 && local == |msg| % 64
      && CountIs(countLo, countHi, |msg|)
      && Consumed(OnBytes(transform), INIT, msg, digest, data[..local])
    }

    /** `apr_sha1_init`. */
    constructor (transform: Transform, little: bool)
      ensures Valid() && fresh(data) && msg == [] && this.transform == transform
    {
      this.transform, this.little := transform, little;
      digest, countLo, countHi, local := INIT, 0, 0, 0;
      data := new byte[64];
      msg := [];
    }

    method SwapWord(k: nat)
      requires k + 4 <= data.Length
      modifies data
      ensures data[..] == old(data[..k]) + old([data[k + 3], data[k + 2], data[k + 1], data[k]]) + old(data[k + 4..])
    {
      data[k], data[k + 1], data[k + 2], data[k + 3] := data[k + 3], data[k + 2], data[k + 1], data[k];
    }

    /** `maybe_byte_reverse` of the whole block. */
    method Reverse()
      requires data.Length == 64
      modifies data
      ensures data[..] == Reversed(little, old(data[..]))
    {
      if !little {
        return;
      }
      ghost var was, done := data[..], [];
      var i := 0;
      while i < 16
        invariant 0 <= i <= 16 && Halfway(was, 4 * i, done, data[..])
      {
        done := SwapNext(4 * i, was, done);
        i := i + 1;
      }
      ReversedAll(was, done, data[..]);
    }

    method SwapNext(k: nat, ghost was: seq<byte>, ghost done: seq<byte>) returns (ghost more: seq<byte>)
      requires k % 4 == 0 && k + 4 <= |was| && Halfway(was, k, done, data[..])
      modifies data
      ensures Halfway(was, k + 4, more, data[..])
    {
      AfterPart(data[..], done, was, k);
      ReversedNext(was, k);
      SwapWord(k);
      more := done + [was[k + 3], was[k + 2], was[k + 1], was[k]];
    }

    /** `maybe_byte_reverse` and `sha_transform`. */
    method TransformBlock()
      requires data.Length == 64
      modifies this`digest, data
      ensures digest == OnBytes(transform)(old(digest), old(data[..]))
    {
      ReversedReads(little, data[..]);
      Reverse();
      digest := transform(digest, Words(little, data[..]));
    }

    method AddToCount(count: nat)
      requires CountIs(countLo, countHi, |msg|) && count < 0x1_0000_0000
      modifies this`countLo, this`countHi
      ensures CountIs(countLo, countHi, |msg| + count)
    {
      CountAdds(countLo, countHi, |msg|, count);
      SameCount(countLo, countHi, count);
      var lo, hi := (countLo + count * 8 % 0x1_0000_0000) % 0x1_0000_0000, countHi;
      if lo < countLo {
        hi := (hi + 1) % 0x1_0000_0000;
      }
      countLo, countHi := lo, (hi + count / 0x2000_0000) % 0x1_0000_0000;
    }

    /** Complete the block in `data`; false if the input is too short for that. */
    method FillData(buffer: seq<byte>) returns (i: nat)
      requires data.Length == 64 && 0 < local < 64 && Consumed(OnBytes(transform), INIT, msg, digest, data[..local])
      modifies this`digest, this`local, data
      ensures i <= |buffer| && local <= 64
      ensures local < 64 ==> i == |buffer| && Consumed(OnBytes(transform), INIT, msg + buffer, digest, data[..local])
      ensures local == 64 ==> Consumed(OnBytes(transform), INIT, msg + buffer[..i], digest, [])
    {
      i := 64 - local;
      if i > |buffer| {
        i := |buffer|;
      }
      ghost var waiting := data[..local];
      var part := buffer[..i];
      CopyInto(data, local, part);
      assert data[..local + i] == waiting + part;
      local := local + i;
      if local == 64 {
        Fill(OnBytes(transform), INIT, msg, digest, waiting, part);
        assert data[..] == data[..64];
        TransformBlock();
      } else {
        Wait(OnBytes(transform), INIT, msg, digest, waiting, part);
        assert part == buffer;
      }
    }

    method TakeBlock(buffer: seq<byte>, i: nat)
      requires data.Length == 64 && i + 64 <= |buffer|
      requires Consumed(OnBytes(transform), INIT, msg + buffer[..i], digest, [])
      modifies this`digest, data
      ensures Consumed(OnBytes(transform), INIT, msg + buffer[..i + 64], digest, [])
    {
      var block := buffer[i..i + 64];
      Block(OnBytes(transform), INIT, msg + buffer[..i], digest, block);
      assert msg + buffer[..i] + block == msg + buffer[..i + 64];
      CopyInto(data, 0, block);
      assert data[..] == block;
      TransformBlock();
    }

    method KeepRest(buffer: seq<byte>, i: nat)
      requires data.Length == 64 && i <= |buffer| < i + 64
      requires Consumed(OnBytes(transform), INIT, msg + buffer[..i], digest, [])
      modifies this`local, data
      ensures local == |msg + buffer| % 64 && Consumed(OnBytes(transform), INIT, msg + buffer, digest, data[..local])
    {
      var rest := buffer[i..];
      Wait(OnBytes(transform), INIT, msg + buffer[..i], digest, [], rest);
      assert msg + buffer[..i] + rest == msg + buffer && [] + rest == rest;
      CopyInto(data, 0, rest);
      local := |buffer| - i;
      assert data[..local] == rest;
    }

    /** Whole blocks straight from the input, from i on; then the rest goes into `data`. */
    method TakeBlocks(buffer: seq<byte>, from: nat)
      requires data.Length == 64 && from <= |buffer|
      requires Consumed(OnBytes(transform), INIT, msg + buffer[..from], digest, [])
      modifies this`digest, this`local, data
      ensures local == |msg + buffer| % 64 && Consumed(OnBytes(transform), INIT, msg + buffer, digest, data[..local])
    {
      var i := from;
      while |buffer| - i >= 64
        invariant from <= i <= |buffer| && Consumed(OnBytes(transform), INIT, msg + buffer[..i], digest, [])
      {
        TakeBlock(buffer, i);
        i := i + 64;
      }
      KeepRest(buffer, i);
    }

    /** `apr_sha1_update_binary`. */
    method Update(buffer: seq<byte>)
      requires Valid() && |buffer| < 0x1_0000_0000
      modifies this, data
      ensures Valid() && data == old(data) && msg == old(msg) + buffer
    {
      AddToCount(|buffer|);
      var from := 0;
      assert msg + buffer[..0] == msg;
      if local != 0 {
        from := FillData(buffer);
        if local != 64 {
          msg := msg + buffer;
          return;
        }
      }
      TakeBlocks(buffer, from);
      msg := msg + buffer;
    }

    /** Clear `data` from `at` to `to`. */
    method ClearData(at: nat, to: nat)
      requires at <= to <= data.Length
      modifies data
      ensures data[..] == old(data[..at]) + Zeros(to - at) + old(data[to..])
    {
      CopyInto(data, at, Zeros(to - at));
    }

    /** The last block: `maybe_byte_reverse`, the two count words stored as the machine stores them, `sha_transform`. */
    method LastBlock(lo: word, hi: word, ghost head: seq<byte>)
      requires data.Length == 64 && |head| == 56 && data[..56] == head
      modifies this`digest, data
      ensures digest == OnBytes(transform)(old(digest), head + Length(lo, hi))
    {
      ghost var was := data[..];
      Reverse();
      CopyInto(data, 56, Store(little, hi));
      CopyInto(data, 60, Store(little, lo));
      LastWords(little, was, head, hi, lo, data[..]);
      digest := transform(digest, Words(little, data[..]));
    }

    /** `apr_sha1_final`: whatever the message was cut into, this is its digest. */
    method Final() returns (out: seq<byte>)
      requires Valid()
      modifies this, data
      ensures IsDigest(transform, old(msg), out)
    {
      var lo, hi := countLo, countHi;
      CountTellsFill(lo, hi, |msg|);
      var count := lo / 8 % 64;
      ghost var waiting, before := data[..count], digest;
      data[count] := 0x80;
      count := count + 1;
      assert data[..count] == waiting + [0x80];
      if count > 56 {
        LongEnd(count, lo, hi, waiting);
        FinishLong(transform, msg, before, waiting, lo, hi);
      } else {
        ShortEnd(count, lo, hi, waiting);
        FinishShort(transform, msg, before, waiting, lo, hi);
      }
      out := Encode(digest);
    }

    method ShortEnd(count: nat, lo: word, hi: word, ghost waiting: seq<byte>)
      requires data.Length == 64 && count == |waiting| + 1 <= 56 && data[..count] == waiting + [0x80]
      modifies this`digest, data
      ensures digest == ShortEnded(transform, old(digest), waiting, lo, hi)
    {
      ClearData(count, 56);
      assert data[..56] == waiting + ([0x80] + Zeros(56 - count));
      LastBlock(lo, hi, waiting + ([0x80] + Zeros(56 - count)));
    }

    method LongEnd(count: nat, lo: word, hi: word, ghost waiting: seq<byte>)
      requires data.Length == 64 && 56 < count == |waiting| + 1 <= 64 && data[..count] == waiting + [0x80]
      modifies this`digest, data
      ensures digest == LongEnded(transform, old(digest), waiting, lo, hi)
    {
      ClearData(count, 64);
      assert data[..] == waiting + ([0x80] + Zeros(64 - count));
      TransformBlock();
      ClearData(0, 56);
      assert data[..56] == Zeros(56);
      LastBlock(lo, hi, Zeros(56));
    }
  }

  function Length(lo: word, hi: word): (r: seq<byte>)
    ensures |r| == 8
  {
    HighFirst(hi) + HighFirst(lo)
  }

  function ShortEnded(transform: Transform, s: State, waiting: seq<byte>, lo: word, hi: word): State
    requires |waiting| < 56
  {
    OnBytes(transform)(s, waiting + ([0x80] + Zeros(55 - |waiting|)) + Length(lo, hi))
  }

  function LongEnded(transform: Transform, s: State, waiting: seq<byte>, lo: word, hi: word): State
    requires 56 <= |waiting| < 64
  {
    OnBytes(transform)(OnBytes(transform)(s, waiting + ([0x80] + Zeros(63 - |waiting|))), Zeros(56) + Length(lo, hi))
  }

  lemma {:induction false} FinishShort(transform: Transform, msg: seq<byte>, s: State, waiting: seq<byte>, lo: word,
                                       hi: word)
    requires CountIs(lo, hi, |msg|) && |waiting| < 56 && Consumed(OnBytes(transform), INIT, msg, s, waiting)
    ensures IsDigest(transform, msg, Encode(ShortEnded(transform, s, waiting, lo, hi)))
  {
    var zeros: nat := 55 - |waiting|;
    var pad, length := [0x80] + Zeros(zeros), Length(lo, hi);
    Fill(OnBytes(transform), INIT, msg, s, waiting, pad + length);
    Assoc(waiting, pad, length);
    Assoc(msg, pad, length);
    PadFits(|msg|, zeros);
    PadsHere(msg, zeros, length);
    CountBytes(lo, hi, |msg|);
    EncodeSpells(ShortEnded(transform, s, waiting, lo, hi));
    assert IsDigestBy(transform, msg, Encode(ShortEnded(transform, s, waiting, lo, hi)), length, msg + pad + length);
  }

  lemma {:induction false} FinishLong(transform: Transform, msg: seq<byte>, s: State, waiting: seq<byte>, lo: word,
                                      hi: word)
    requires CountIs(lo, hi, |msg|) && 56 <= |waiting| && Consumed(OnBytes(transform), INIT, msg, s, waiting)
    ensures IsDigest(transform, msg, Encode(LongEnded(transform, s, waiting, lo, hi)))
  {
    var zeros: nat := 119 - |waiting|;
    var part, length := [0x80] + Zeros(63 - |waiting|), Length(lo, hi);
    Fill(OnBytes(transform), INIT, msg, s, waiting, part);
    Block(OnBytes(transform), INIT, msg + part, OnBytes(transform)(s, waiting + part), Zeros(56) + length);
    PadFits(|msg|, zeros);
    PadsHere(msg, zeros, length);
    assert msg + part + (Zeros(56) + length) == msg + ([0x80] + Zeros(zeros)) + length;
    CountBytes(lo, hi, |msg|);
    EncodeSpells(LongEnded(transform, s, waiting, lo, hi));
    assert IsDigestBy(transform, msg, Encode(LongEnded(transform, s, waiting, lo, hi)), length,
                      msg + ([0x80] + Zeros(zeros)) + length);
  }

  /** The count as `apr_sha1_update_binary` adds to it, with another test for the carry. */
  lemma {:induction false} SameCount(lo: word, hi: word, count: nat)
    requires count < 0x1_0000_0000
    ensures (lo + count * 8 % 0x1_0000_0000) % 0x1_0000_0000 == LowCount(lo, count)
    ensures HighCount(lo, hi, count)
      == ((if LowCount(lo, count) < lo then (hi + 1) % 0x1_0000_0000 else hi) + count / 0x2000_0000) % 0x1_0000_0000
  {
  }

  /** The words of the last block, read back on either machine. */
  lemma {:induction false} LastWords(little: bool, was: seq<byte>, head: seq<byte>, hi: word, lo: word, d: seq<byte>)
    requires |was| == 64 && |head| == 56 && was[..56] == head && |d| == 64
    requires d == Reversed(little, was)[..56] + Store(little, hi) + Store(little, lo)
    ensures Words(little, d) == Words(false, head + (HighFirst(hi) + HighFirst(lo)))
  {
    var length := HighFirst(hi) + HighFirst(lo);
    assert was == head + was[56..];
    ReversedConcat(little, head, was[56..]);
    ReversedConcat(little, head, length);
    ReversedConcat(little, HighFirst(hi), HighFirst(lo));
    StoreIsReversed(little, hi);
    StoreIsReversed(little, lo);
    assert d == Reversed(little, head + length);
    ReversedReads(little, head + length);
  }

  /** Init, any updates, final: the cuts do not show in the digest. */
  method DigestOf(transform: Transform, little: bool, parts: seq<seq<byte>>) returns (digest: seq<byte>)
    requires forall i :: 0 <= i < |parts| ==> |parts[i]| < 0x1_0000_0000
    ensures IsDigest(transform, Flat(parts), digest)
  {
    var ctx := new Context(transform, little);
    var i := 0;
    while i < |parts|
      invariant 0 <= i <= |parts| && ctx.Valid() && fresh(ctx) && fresh(ctx.data) && ctx.transform == transform
      invariant ctx.msg == Flat(parts[..i])
    {
      ctx.Update(parts[i]);
      assert parts[..i + 1][..i] == parts[..i];
      i := i + 1;
    }
    assert parts[..i] == parts;
    digest := ctx.Final();
  }
}
