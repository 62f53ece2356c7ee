/**
  What a message digest is, apart from how it is computed: the block transform folded over the
  padded message (sections 3.1 to 3.4 of RFC 1321, sections 4 and 6 of RFC 3174). The transform
  itself stays any function.
 */
module Digest {
  import opened Bytes

  type word = w: int | 0 <= w < 0x1_0000_0000

  /** The transform applied to one block of 64 bytes after the other. */
  function Fold<S>(transform: (S, seq<byte>) -> S, s: S, blocks: seq<byte>): S
    decreases |blocks|
  {
    if |blocks| < 64 then s
    else Fold(transform, transform(s, blocks[..64]), blocks[64..])
  }

  lemma {:induction false} FoldConcat<S>(transform: (S, seq<byte>) -> S, s: S, a: seq<byte>, b: seq<byte>)
    requires |a| % 64 == 0
    ensures Fold(transform, s, a + b) == Fold(transform, Fold(transform, s, a), b)
    decreases |a|
  {
    if a == [] {
      assert a + b == b;
    } else {
      var ab := a + b;
      assert ab[..64] == a[..64];
      assert ab[64..] == a[64..] + b;
      FoldConcat(transform, transform(s, a[..64]), a[64..], b);
    }
  }

  lemma {:induction false} FoldBlock<S>(transform: (S, seq<byte>) -> S, s: S, a: seq<byte>, block: seq<byte>)
    requires |a| % 64 == 0 && |block| == 64
    ensures Fold(transform, s, a + block) == transform(Fold(transform, s, a), block)
  {
    FoldConcat(transform, s, a, block);
    assert block[..64] == block;
  }

  /** Fewer than 64 bytes at the end do not count. */
  lemma {:induction false} FoldRest<S>(transform: (S, seq<byte>) -> S, s: S, a: seq<byte>, rest: seq<byte>)
    requires |a| % 64 == 0 && |rest| < 64
    ensures Fold(transform, s, a + rest) == Fold(transform, s, a)
  {
    FoldConcat(transform, s, a, rest);
  }

  // ----- Bit counts

  /** The two words of a bit count hold the low-order 64 bits of eight times the number of bytes. */
  predicate CountIs(lo: word, hi: word, n: nat) {
    lo == 8 * n % 0x1_0000_0000 && hi == 8 * n / 0x1_0000_0000 % 0x1_0000_0000
  }

  /** What both digests do to their count words for an input of len bytes, with the wrap-around of 32 bits. */
  function LowCount(lo: word, len: nat): word { (lo + len * 8 % 0x1_0000_0000) % 0x1_0000_0000 }

  function HighCount(lo: word, hi: word, len: nat): word {
    ((if LowCount(lo, len) < len * 8 % 0x1_0000_0000 then hi + 1 else hi) % 0x1_0000_0000
     + len % 0x1_0000_0000 / 0x2000_0000) % 0x1_0000_0000
  }

  lemma {:induction false} DivMod(x: int, q: int, r: int)
    requires 0 <= r < 0x1_0000_0000 && x == q * 0x1_0000_0000 + r
    ensures x / 0x1_0000_0000 == q && x % 0x1_0000_0000 == r
  {
  }

  lemma {:induction false} ModAdds(a: int, b: int)
    ensures (a % 0x1_0000_0000 + b) % 0x1_0000_0000 == (a + b) % 0x1_0000_0000
  {
    var q, r := (a % 0x1_0000_0000 + b) / 0x1_0000_0000, (a % 0x1_0000_0000 + b) % 0x1_0000_0000;
    DivMod(a + b, a / 0x1_0000_0000 + q, r);
  }

  /**
    The count stays right for inputs shorter than 2^32 bytes. For longer ones, whose length is cut
    down to 32 bits, it does so only if the part cut off is a multiple of 2^61.
   */
  lemma {:induction false} CountAdds(lo: word, hi: word, n: nat, len: nat)
    requires CountIs(lo, hi, n)
    ensures CountIs(LowCount(lo, len), HighCount(lo, hi, len), n + len) <==> len / 0x1_0000_0000 % 0x2000_0000 == 0
  {
    var a, b := 8 * n, 8 * len;
    var qa, qb := a / 0x1_0000_0000, b / 0x1_0000_0000;
    var sum := lo + b % 0x1_0000_0000;
    var carry := if sum >= 0x1_0000_0000 then 1 else 0;
    var rest := sum - carry * 0x1_0000_0000;
    DivMod(a + b, qa + qb + carry, rest);
    DivMod(sum, carry, rest);
    var kept, lost := len % 0x1_0000_0000 / 0x2000_0000, len / 0x1_0000_0000;
    assert qb == kept + 8 * lost;
    assert HighCount(lo, hi, len) == ((hi + carry) % 0x1_0000_0000 + kept) % 0x1_0000_0000;
    ModAdds(hi + carry, kept);
    ModAdds(qa, carry + kept);
    LostBits(qa + carry + kept, lost);
  }

  /** An input of 2^32 bytes is not counted. */
  lemma {:induction false} CountLost()
    ensures CountIs(0, 0, 0) && !CountIs(LowCount(0, 0x1_0000_0000), HighCount(0, 0, 0x1_0000_0000), 0x1_0000_0000)
  {
    CountAdds(0, 0, 0, 0x1_0000_0000);
  }

  lemma {:induction false} LostBits(x: int, lost: nat)
    ensures (x + 8 * lost) % 0x1_0000_0000 == x % 0x1_0000_0000 <==> lost % 0x2000_0000 == 0
  {
    var q, r := lost / 0x2000_0000, lost % 0x2000_0000;
    assert x + 8 * lost == (x + 8 * r) + q * 0x1_0000_0000;
    DivMod(x + 8 * lost, (x + 8 * r) / 0x1_0000_0000 + q, (x + 8 * r) % 0x1_0000_0000);
  }

  /** The bytes waiting in the buffer, as both digests read them off the count. */
  lemma {:induction false} CountTellsFill(lo: word, hi: word, n: nat)
    requires CountIs(lo, hi, n)
    ensures lo / 8 % 64 == n % 64
  {
    var q := 8 * n / 0x1_0000_0000;
    assert 8 * n == q * 0x1_0000_0000 + lo;
    assert lo / 8 == n - q * (0x2000_0000);
  }

  // ----- Words as bytes

  function LowFirst(w: word): (r: seq<byte>)
    ensures |r| == 4
  {
    [w % 256, w / 0x100 % 256, w / 0x1_0000 % 256, w / 0x100_0000]
  }

  function HighFirst(w: word): (r: seq<byte>)
    ensures |r| == 4
  {
    [w / 0x100_0000, w / 0x1_0000 % 256, w / 0x100 % 256, w % 256]
  }

  /** The number that bytes stand for, the low byte first. */
  function LowValue(b: seq<byte>): nat {
    if b == [] then 0 else b[0] + 256 * LowValue(b[1..])
  }

  /** The number that bytes stand for, the high byte first. */
  function HighValue(b: seq<byte>): nat {
    if b == [] then 0 else 256 * HighValue(b[..|b| - 1]) + b[|b| - 1]
  }

  lemma {:induction false} LowUnique(a: seq<byte>, b: seq<byte>)
    requires |a| == |b| && LowValue(a) == LowValue(b)
    ensures a == b
    decreases |a|
  {
    if a != [] {
      LowUnique(a[1..], b[1..]);
      assert a == [a[0]] + a[1..] && b == [b[0]] + b[1..];
    }
  }

  lemma {:induction false} HighUnique(a: seq<byte>, b: seq<byte>)
    requires |a| == |b| && HighValue(a) == HighValue(b)
    ensures a == b
    decreases |a|
  {
    if a != [] {
      var n := |a| - 1;
      HighUnique(a[..n], b[..n]);
      assert a == a[..n] + [a[n]] && b == b[..n] + [b[n]];
    }
  }

  lemma {:induction false} LowAfter(x: byte, b: seq<byte>)
    ensures LowValue([x] + b) == x + 256 * LowValue(b)
  {
    assert ([x] + b)[1..] == b;
  }

  lemma {:induction false} HighBefore(a: seq<byte>, x: byte)
    ensures HighValue(a + [x]) == 256 * HighValue(a) + x
  {
    assert (a + [x])[..|a|] == a;
  }

  lemma {:induction false} LowFour(b0: byte, b1: byte, b2: byte, b3: byte, b: seq<byte>)
    ensures LowValue([b0, b1, b2, b3] + b) == b0 + 256 * (b1 + 256 * (b2 + 256 * (b3 + 256 * LowValue(b))))
  {
    var three := [b3] + b;
    var two := [b2] + three;
    var one := [b1] + two;
    LowAfter(b3, b);
    LowAfter(b2, three);
    LowAfter(b1, two);
    LowAfter(b0, one);
    assert [b0, b1, b2, b3] + b == [b0] + one;
  }

  lemma {:induction false} HighFour(a: seq<byte>, b0: byte, b1: byte, b2: byte, b3: byte)
    ensures HighValue(a + [b0, b1, b2, b3]) == 256 * (256 * (256 * (256 * HighValue(a) + b0) + b1) + b2) + b3
  {
    var one := a + [b0];
    var two := one + [b1];
    var three := two + [b2];
    HighBefore(a, b0);
    HighBefore(one, b1);
    HighBefore(two, b2);
    HighBefore(three, b3);
    assert a + [b0, b1, b2, b3] == three + [b3];
  }

  lemma {:induction false} WordDigits(w: word)
    ensures w == w % 256 + 256 * (w / 0x100 % 256 + 256 * (w / 0x1_0000 % 256 + 256 * (w / 0x100_0000)))
  {
    assert w / 0x1_0000 == w / 0x100 / 256 && w / 0x100_0000 == w / 0x1_0000 / 256;
  }

  lemma {:induction false} LowFirstThen(w: word, b: seq<byte>)
    ensures LowValue(LowFirst(w) + b) == w + 0x1_0000_0000 * LowValue(b)
  {
    LowFour(w % 256, w / 0x100 % 256, w / 0x1_0000 % 256, w / 0x100_0000, b);
    WordDigits(w);
  }

  lemma {:induction false} ThenHighFirst(a: seq<byte>, w: word)
    ensures HighValue(a + HighFirst(w)) == 0x1_0000_0000 * HighValue(a) + w
  {
    HighFour(a, w / 0x100_0000, w / 0x1_0000 % 256, w / 0x100 % 256, w % 256);
    WordDigits(w);
  }

  lemma {:induction false} WordBytes(w: word)
    ensures LowValue(LowFirst(w)) == w == HighValue(HighFirst(w))
  {
    LowFirstThen(w, []);
    ThenHighFirst([], w);
    assert LowFirst(w) + [] == LowFirst(w) && [] + HighFirst(w) == HighFirst(w);
  }

  lemma {:induction false} LongMod(x: int, p: int, r: int)
    requires 0 <= r < 0x1_0000_0000_0000_0000 && x == p * 0x1_0000_0000_0000_0000 + r
    ensures x % 0x1_0000_0000_0000_0000 == r
  {
  }

  lemma {:induction false} CountValue(lo: word, hi: word, n: nat)
    requires CountIs(lo, hi, n)
    ensures 0x1_0000_0000 * hi + lo == 8 * n % 0x1_0000_0000_0000_0000
  {
    var q := 8 * n / 0x1_0000_0000;
    var p := q / 0x1_0000_0000;
    LongMod(8 * n, p, 0x1_0000_0000 * hi + lo);
  }

  /** The eight bytes in which the digests write the count. */
  lemma {:induction false} CountBytes(lo: word, hi: word, n: nat)
    requires CountIs(lo, hi, n)
    ensures LowValue(LowFirst(lo) + LowFirst(hi)) == 8 * n % 0x1_0000_0000_0000_0000
    ensures HighValue(HighFirst(hi) + HighFirst(lo)) == 8 * n % 0x1_0000_0000_0000_0000
  {
    LowFirstThen(lo, LowFirst(hi));
    ThenHighFirst(HighFirst(hi), lo);
    WordBytes(hi);
    CountValue(lo, hi, n);
  }

  function Zeros(n: nat): (r: seq<byte>)
    ensures |r| == n && forall i :: 0 <= i < n ==> r[i] == 0
  {
    seq(n, _ => 0)
  }

  /**
    `padded` is the message, the byte 0x80, fewer than 64 zero bytes and the eight bytes of the length,
    a multiple of 64 bytes altogether.
   */
  ghost predicate Pads(msg: seq<byte>, length: seq<byte>, padded: seq<byte>) {
    && |length| == 8 && |padded| % 64 == 0
    && exists zeros: nat :: zeros < 64 && padded == msg + ([0x80] + Zeros(zeros)) + length
  }

  lemma {:induction false} PadsUnique(msg: seq<byte>, length: seq<byte>, p: seq<byte>, q: seq<byte>)
    requires Pads(msg, length, p) && Pads(msg, length, q)
    ensures p == q
  {
    var a: nat :| a < 64 && p == msg + ([0x80] + Zeros(a)) + length;
    var b: nat :| b < 64 && q == msg + ([0x80] + Zeros(b)) + length;
    assert |p| == |msg| + 9 + a && |q| == |msg| + 9 + b;
    assert a == b;
  }

  /** A stream that has consumed `msg`: whole blocks are folded, the rest waits in the buffer. */
  ghost predicate Consumed<S>(transform: (S, seq<byte>) -> S, init: S, msg: seq<byte>, state: S, waiting: seq<byte>) {
    && |waiting| == |msg| % 64
    && state == Fold(transform, init, msg)
    && waiting == msg[|msg| - |msg| % 64..]
  }

  lemma {:induction false} Fill<S>(transform: (S, seq<byte>) -> S, init: S, msg: seq<byte>, state: S,
                                   waiting: seq<byte>, part: seq<byte>)
    requires Consumed(transform, init, msg, state, waiting) && |waiting| + |part| == 64
    ensures Consumed(transform, init, msg + part, transform(state, waiting + part), [])
  {
    var whole := msg[..|msg| - |msg| % 64];
    assert msg == whole + waiting;
    FoldRest(transform, init, whole, waiting);
    FoldBlock(transform, init, whole, waiting + part);
    assert msg + part == whole + (waiting + part);
  }

  lemma {:induction false} Block<S>(transform: (S, seq<byte>) -> S, init: S, msg: seq<byte>, state: S, block: seq<byte>)
    requires Consumed(transform, init, msg, state, []) && |block| == 64
    ensures Consumed(transform, init, msg + block, transform(state, block), [])
  {
    Fill(transform, init, msg, state, [], block);
    assert [] + block == block;
  }

  lemma {:induction false} Wait<S>(transform: (S, seq<byte>) -> S, init: S, msg: seq<byte>, state: S,
                                   waiting: seq<byte>, part: seq<byte>)
    requires Consumed(transform, init, msg, state, waiting) && |waiting| + |part| < 64
    ensures Consumed(transform, init, msg + part, state, waiting + part)
  {
    var whole := msg[..|msg| - |msg| % 64];
    assert msg == whole + waiting;
    FoldRest(transform, init, whole, waiting);
    FoldRest(transform, init, whole, waiting + part);
    assert msg + part == whole + (waiting + part);
  }

  lemma {:induction false} PadFits(n: nat, zeros: nat)
    requires zeros == if n % 64 < 56 then 55 - n % 64 else 119 - n % 64
    ensures zeros < 64 && (n + 1 + zeros) % 64 == 56
  {
    var q := n / 64;
    assert n == 64 * q + n % 64;
    assert n + 1 + zeros == 64 * q + 56 || n + 1 + zeros == 64 * (q + 1) + 56;
  }

  /** Padding out to 56 mod 64, as both digests do it. */
  lemma {:induction false} PadsHere(msg: seq<byte>, zeros: nat, length: seq<byte>)
    requires |length| == 8 && zeros < 64 && (|msg| + 1 + zeros) % 64 == 56
    ensures Pads(msg, length, msg + ([0x80] + Zeros(zeros)) + length)
  {
    var padded := msg + ([0x80] + Zeros(zeros)) + length;
    assert |padded| == |msg| + 1 + zeros + 8;
  }
}
