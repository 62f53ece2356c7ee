/**
  Base64 as apr-util/encoding/apr_base64.c codes it, against section 4 of RFC 4648: groups of 24
  bits are read as numbers and written in sextets.
 */
module Base64 {
  import opened Bytes

  type sextet = x: int | 0 <= x < 64

  const PAD: byte := 61 // '='

  /** `basis_64`. */
  function Basis(i: sextet): byte {
    if i < 26 then i + 65 else if i < 52 then i + 71 else if i < 62 then i - 4 else if i == 62 then 43 else 47
  }

  /** `pr2six`; 64 stands for what is not in the alphabet. */
  function Pr2Six(c: byte): int {
    if 65 <= c <= 90 then c - 65
    else if 97 <= c <= 122 then c - 71
    else if 48 <= c <= 57 then c + 4
    else if c == 43 then 62
    else if c == 47 then 63
    else 64
  }

  // ----- Groups of 24 bits

  function Number(b0: int, b1: int, b2: int): int { 65536 * b0 + 256 * b1 + b2 }

  /** The first k sextets of a 24-bit number. */
  function Split(n: int, k: nat): (r: seq<sextet>)
    requires 0 <= n < 0x100_0000 && k <= 4
    ensures |r| == k
  {
    [n / 262144, n / 4096 % 64, n / 64 % 64, n % 64][..k]
  }

  /** The sextets of a byte string; a last group of one or two bytes is filled with zero bits and gives two or three. */
  function Sextets(s: seq<byte>): seq<sextet> {
    if |s| == 0 then []
    else if |s| == 1 then Split(Number(s[0], 0, 0), 2)
    else if |s| == 2 then Split(Number(s[0], s[1], 0), 3)
    else Split(Number(s[0], s[1], s[2]), 4) + Sextets(s[3..])
  }

  function Letters(t: seq<sextet>): (r: seq<byte>)
    ensures |r| == |t|
    ensures forall i :: 0 <= i < |t| ==> r[i] == Basis(t[i])
  {
    seq(|t|, i requires 0 <= i < |t| => Basis(t[i]))
  }

  function Padding(n: nat): seq<byte> {
    if n % 3 == 1 then [PAD, PAD] else if n % 3 == 2 then [PAD] else []
  }

  /** The code of a byte string. */
  function Encoded(s: seq<byte>): seq<byte> {
    Letters(Sextets(s)) + Padding(|s|)
  }

  /** `apr_base64_encode_len`. */
  function EncodeLen(n: nat): nat { (n + 2) / 3 * 4 + 1 }

  lemma {:induction false} SextetCount(s: seq<byte>)
    ensures |Sextets(s)| == (4 * |s| + 2) / 3
    decreases |s|
  {
    if |s| >= 3 {
      SextetCount(s[3..]);
    }
  }

  lemma {:induction false} LengthSum(n: nat)
    ensures (4 * n + 2) / 3 + |Padding(n)| + 1 == EncodeLen(n)
  {
    var q := n / 3;
    if n % 3 == 0 {
      assert n == 3 * q && (4 * n + 2) / 3 == 4 * q && (n + 2) / 3 == q;
    } else if n % 3 == 1 {
      assert n == 3 * q + 1 && (4 * n + 2) / 3 == 4 * q + 2 && (n + 2) / 3 == q + 1;
    } else {
      assert n == 3 * q + 2 && (4 * n + 2) / 3 == 4 * q + 3 && (n + 2) / 3 == q + 1;
    }
  }

  lemma {:induction false} EncodedLength(s: seq<byte>)
    ensures |Encoded(s)| + 1 == EncodeLen(|s|)
  {
    SextetCount(s);
    LengthSum(|s|);
  }

  /** The first k bytes of a 24-bit number given by sextets. */
  function Bytes3(t0: int, t1: int, t2: int, t3: int, k: nat): (r: seq<byte>)
    requires 0 <= t0 < 64 && 0 <= t1 < 64 && 0 <= t2 < 64 && 0 <= t3 < 64 && k <= 3
    ensures |r| == k
  {
    var n := 262144 * t0 + 4096 * t1 + 64 * t2 + t3;
    [n / 65536, n / 256 % 256, n % 256][..k]
  }

  /** What sextets stand for; a single one at the end stands for nothing. */
  function Joined(t: seq<sextet>): seq<byte> {
    if |t| < 2 then []
    else if |t| == 2 then Bytes3(t[0], t[1], 0, 0, 1)
    else if |t| == 3 then Bytes3(t[0], t[1], t[2], 0, 2)
    else Bytes3(t[0], t[1], t[2], t[3], 3) + Joined(t[4..])
  }

  lemma {:induction false} SplitSum(n: int)
    requires 0 <= n < 0x100_0000
    ensures 262144 * (n / 262144) + 4096 * (n / 4096 % 64) + 64 * (n / 64 % 64) + n % 64 == n
  {
    var m := n / 64;
    var l := m / 64;
    assert m / 64 == n / 4096 && l / 64 == n / 262144;
  }

  lemma {:induction false} NumberBytes(b0: int, b1: int, b2: int)
    requires 0 <= b0 < 256 && 0 <= b1 < 256 && 0 <= b2 < 256
    ensures var n := Number(b0, b1, b2); n / 65536 == b0 && n / 256 % 256 == b1 && n % 256 == b2
    ensures b2 == 0 ==> Number(b0, b1, b2) % 64 == 0
    ensures b1 == 0 && b2 == 0 ==> Number(b0, b1, b2) / 64 % 64 == 0
  {
    var n := Number(b0, b1, b2);
    assert n / 256 == 256 * b0 + b1;
    if b1 == 0 && b2 == 0 {
      assert n / 64 == 1024 * b0;
    }
  }

  lemma {:induction false} GroupRoundTrip(b0: byte, b1: byte, b2: byte)
    ensures var t := Split(Number(b0, b1, b2), 4); Bytes3(t[0], t[1], t[2], t[3], 3) == [b0, b1, b2]
    ensures b2 == 0 ==> Split(Number(b0, b1, b2), 4)[3] == 0
    ensures b1 == 0 && b2 == 0 ==> Split(Number(b0, b1, b2), 4)[2] == 0
  {
    SplitSum(Number(b0, b1, b2));
    NumberBytes(b0, b1, b2);
  }

  lemma {:induction false} OneRoundTrip(b0: byte)
    ensures Joined(Split(Number(b0, 0, 0), 2)) == [b0]
  {
    GroupRoundTrip(b0, 0, 0);
    var t := Split(Number(b0, 0, 0), 4);
    assert Split(Number(b0, 0, 0), 2) == [t[0], t[1]];
    assert Bytes3(t[0], t[1], 0, 0, 1) == Bytes3(t[0], t[1], 0, 0, 3)[..1];
  }

  lemma {:induction false} TwoRoundTrip(b0: byte, b1: byte)
    ensures Joined(Split(Number(b0, b1, 0), 3)) == [b0, b1]
  {
    GroupRoundTrip(b0, b1, 0);
    var t := Split(Number(b0, b1, 0), 4);
    assert Split(Number(b0, b1, 0), 3) == [t[0], t[1], t[2]];
    assert Bytes3(t[0], t[1], t[2], 0, 2) == Bytes3(t[0], t[1], t[2], 0, 3)[..2];
  }

  lemma {:induction false} SextetsRoundTrip(s: seq<byte>)
    ensures Joined(Sextets(s)) == s
    decreases |s|
  {
    if |s| == 1 {
      OneRoundTrip(s[0]);
    } else if |s| == 2 {
      TwoRoundTrip(s[0], s[1]);
    } else if |s| >= 3 {
      GroupRoundTrip(s[0], s[1], s[2]);
      SextetsRoundTrip(s[3..]);
      JoinedGroup(Split(Number(s[0], s[1], s[2]), 4), Sextets(s[3..]));
      assert s == [s[0], s[1], s[2]] + s[3..];
    }
  }

  lemma {:induction false} JoinedGroup(quad: seq<sextet>, rest: seq<sextet>)
    requires |quad| == 4
    ensures Joined(quad + rest) == Bytes3(quad[0], quad[1], quad[2], quad[3], 3) + Joined(rest)
  {
    assert (quad + rest)[4..] == rest;
  }

  // ----- The code's own forms

  lemma {:induction false} ShiftsSplit(b0: int, b1: int, b2: int)
    requires 0 <= b0 < 256 && 0 <= b1 < 256 && 0 <= b2 < 256
    ensures Split(Number(b0, b1, b2), 4) == [b0 / 4, b0 % 4 * 16 + b1 / 16, b1 % 16 * 4 + b2 / 64, b2 % 64]
  {
    var n := Number(b0, b1, b2);
    var m := 16 * b0 + b1 / 16;
    var l := 64 * m + (b1 % 16 * 4 + b2 / 64);
    Div64(n, l, b2 % 64);
    Div64(l, m, b1 % 16 * 4 + b2 / 64);
    Div64(m, b0 / 4, b0 % 4 * 16 + b1 / 16);
    Nested(n);
  }

  lemma {:induction false} Div64(x: int, q: int, r: int)
    requires 0 <= r < 64 && x == 64 * q + r
    ensures x / 64 == q && x % 64 == r
  {
  }

  lemma {:induction false} Nested(n: int)
    requires 0 <= n
    ensures n / 4096 == n / 64 / 64 && n / 262144 == n / 64 / 64 / 64
  {
  }

  lemma {:induction false} ShiftsJoin(t0: int, t1: int, t2: int, t3: int)
    requires 0 <= t0 < 64 && 0 <= t1 < 64 && 0 <= t2 < 64 && 0 <= t3 < 64
    ensures Bytes3(t0, t1, t2, t3, 3) == [t0 * 4 + t1 / 16, t1 % 16 * 16 + t2 / 4, t2 % 4 * 64 + t3]
  {
    var n := 262144 * t0 + 4096 * t1 + 64 * t2 + t3;
    var m := 1024 * t0 + 16 * t1 + t2 / 4;
    Div256(n, m, t2 % 4 * 64 + t3);
    Div256(m, 4 * t0 + t1 / 16, t1 % 16 * 16 + t2 / 4);
    assert n / 65536 == n / 256 / 256;
  }

  lemma {:induction false} Div256(x: int, q: int, r: int)
    requires 0 <= r < 256 && x == 256 * q + r
    ensures x / 256 == q && x % 256 == r
  {
  }

  // ----- Encoding

  lemma {:induction false} LettersConcat(a: seq<sextet>, b: seq<sextet>)
    ensures Letters(a + b) == Letters(a) + Letters(b)
  {
  }

  lemma {:induction false} PaddingRepeats(n: nat)
    requires n >= 3
    ensures Padding(n - 3) == Padding(n)
  {
    assert (n - 3) % 3 == n % 3;
  }

  lemma {:induction false} EncodedGroup(s: seq<byte>)
    requires |s| >= 3
    ensures Encoded(s) == Letters(Split(Number(s[0], s[1], s[2]), 4)) + Encoded(s[3..])
  {
    var head, tail := Split(Number(s[0], s[1], s[2]), 4), Sextets(s[3..]);
    assert Sextets(s) == head + tail;
    LettersConcat(head, tail);
    PaddingRepeats(|s|);
    Assoc(Letters(head), Letters(tail), Padding(|s|));
  }

  lemma {:induction false} EncodedOne(b0: byte)
    ensures Encoded([b0]) == [Basis(b0 as int / 4), Basis(b0 as int % 4 * 16), PAD, PAD]
  {
    ShiftsSplit(b0, 0, 0);
    assert Letters(Split(Number(b0, 0, 0), 2)) == [Basis(b0 as int / 4), Basis(b0 as int % 4 * 16)];
  }

  lemma {:induction false} EncodedTwo(b0: byte, b1: byte)
    ensures Encoded([b0, b1])
      == [Basis(b0 as int / 4), Basis(b0 as int % 4 * 16 + b1 as int / 16), Basis(b1 as int % 16 * 4), PAD]
  {
    ShiftsSplit(b0, b1, 0);
    assert Letters(Split(Number(b0, b1, 0), 3))
        == [Basis(b0 as int / 4), Basis(b0 as int % 4 * 16 + b1 as int / 16), Basis(b1 as int % 16 * 4)];
  }

  /** `apr_base64_encode_binary`: the code, a NUL, and how many bytes that is. */
  method Encode(encoded: array<byte>, s: seq<byte>) returns (written: nat)
    requires encoded.Length >= EncodeLen(|s|)
    modifies encoded
    ensures written == EncodeLen(|s|) && encoded[..written] == Encoded(s) + [0]
    ensures encoded[written..] == old(encoded[written..])
  {
    EncodedLength(s);
    var rest, p := s, 0;
    while |rest| > 2
      invariant 0 <= p && p + |Encoded(rest)| == |Encoded(s)|
      invariant Encoded(s) == encoded[..p] + Encoded(rest)
      invariant encoded[p..] == old(encoded[p..])
      decreases |rest|
    {
      p := EncodeGroup(encoded, p, rest);
      rest := rest[3..];
    }
    p := EncodeEnd(encoded, p, rest);
    encoded[p] := 0;
    written := p + 1;
  }

  method EncodeGroup(encoded: array<byte>, p: nat, s: seq<byte>) returns (p': nat)
    requires |s| >= 3 && p + |Encoded(s)| <= encoded.Length
    modifies encoded
    ensures p' == p + 4 && |Encoded(s)| == 4 + |Encoded(s[3..])|
    ensures encoded[..p'] + Encoded(s[3..]) == old(encoded[..p]) + Encoded(s)
    ensures p' <= encoded.Length && encoded[p'..] == old(encoded[p'..])
  {
    var quad := [Basis(s[0] / 4), Basis(s[0] % 4 * 16 + s[1] / 16), Basis(s[1] % 16 * 4 + s[2] / 64), Basis(s[2] % 64)];
    EncodedGroup(s);
    ShiftsSplit(s[0], s[1], s[2]);
    assert quad == Letters(Split(Number(s[0], s[1], s[2]), 4));
    CopyInto(encoded, p, quad);
    p' := p + 4;
    Assoc(old(encoded[..p]), quad, Encoded(s[3..]));
    assert encoded[..p'] == old(encoded[..p]) + quad;
  }

  /** The last group, of one or two bytes, if there is one. */
  method EncodeEnd(encoded: array<byte>, p: nat, s: seq<byte>) returns (p': nat)
    requires |s| < 3 && p + |Encoded(s)| <= encoded.Length
    modifies encoded
    ensures p' == p + |Encoded(s)|
    ensures encoded[..p'] == old(encoded[..p]) + Encoded(s) && encoded[p'..] == old(encoded[p'..])
  {
    var quad: seq<byte> := [];
    if |s| == 1 {
      quad := [Basis(s[0] / 4), Basis(s[0] % 4 * 16), PAD, PAD];
      EncodedOne(s[0]);
      assert s == [s[0]];
    } else if |s| == 2 {
      quad := [Basis(s[0] / 4), Basis(s[0] % 4 * 16 + s[1] / 16), Basis(s[1] % 16 * 4), PAD];
      EncodedTwo(s[0], s[1]);
      assert s == [s[0], s[1]];
    }
    assert quad == Encoded(s);
    CopyInto(encoded, p, quad);
    p' := p + |quad|;
    assert encoded[..p'] == old(encoded[..p]) + quad;
  }

  // ----- Decoding

  /** How many letters a string starts with. */
  function LetterCount(coded: seq<byte>): (n: nat)
    ensures n <= |coded|
    ensures forall i :: 0 <= i < n ==> Pr2Six(coded[i]) <= 63
    ensures n < |coded| ==> Pr2Six(coded[n]) > 63
  {
    if coded == [] || Pr2Six(coded[0]) > 63 then 0 else 1 + LetterCount(coded[1..])
  }

  function Codes(letters: seq<byte>): (t: seq<sextet>)
    requires forall i :: 0 <= i < |letters| ==> Pr2Six(letters[i]) <= 63
    ensures |t| == |letters| && forall i :: 0 <= i < |t| ==> t[i] == Pr2Six(letters[i])
  {
    seq(|letters|, i requires 0 <= i < |letters| => Pr2Six(letters[i]))
  }

  /** What a string stands for: its letters up to the first other character. */
  function Decoded(coded: seq<byte>): seq<byte> {
    Joined(Codes(coded[..LetterCount(coded)]))
  }

  /** `apr_base64_decode_len`. */
  function DecodeLen(coded: seq<byte>): nat { (LetterCount(coded) + 3) / 4 * 3 + 1 }

  lemma {:induction false} JoinedLength(t: seq<sextet>)
    ensures |Joined(t)| == JoinedCount(|t|)
    decreases |t|
  {
    if |t| >= 4 {
      JoinedLength(t[4..]);
    }
  }

  lemma {:induction false} BasisInverse(i: sextet)
    ensures Pr2Six(Basis(i)) == i
  {
  }

  /** Decoding undoes encoding, for every byte string and whatever follows the code. */
  lemma {:induction false} RoundTrip(s: seq<byte>, after: seq<byte>)
    ensures Decoded(Encoded(s) + [0] + after) == s
  {
    var t := Sextets(s);
    var letters, coded := Letters(t), Encoded(s) + [0] + after;
    forall i | 0 <= i < |t| ensures Pr2Six(letters[i]) == t[i] {
      BasisInverse(t[i]);
    }
    assert coded == letters + (Padding(|s|) + [0] + after);
    CountsLetters(letters, Padding(|s|) + [0] + after);
    assert coded[..|letters|] == letters;
    assert Codes(letters) == t;
    SextetsRoundTrip(s);
  }

  lemma {:induction false} CountsLetters(letters: seq<byte>, rest: seq<byte>)
    requires forall i :: 0 <= i < |letters| ==> Pr2Six(letters[i]) <= 63
    requires rest != [] && Pr2Six(rest[0]) > 63
    ensures LetterCount(letters + rest) == |letters|
  {
    if letters == [] {
      assert letters + rest == rest;
    } else {
      assert (letters + rest)[1..] == letters[1..] + rest;
      CountsLetters(letters[1..], rest);
    }
  }

  /** `while (pr2six[*(bufin++)] <= 63);` on a string that has an end. */
  method CountLetters(coded: seq<byte>) returns (n: nat)
    requires LetterCount(coded) < |coded|
    ensures n == LetterCount(coded)
  {
    n := 0;
    while Pr2Six(coded[n]) <= 63
      invariant 0 <= n <= LetterCount(coded)
      decreases |coded| - n
    {
      n := n + 1;
    }
  }

  lemma {:induction false} ShiftsJoin2(t0: int, t1: int)
    requires 0 <= t0 < 64 && 0 <= t1 < 64
    ensures Bytes3(t0, t1, 0, 0, 1) == [t0 * 4 + t1 / 16]
  {
    ShiftsJoin(t0, t1, 0, 0);
    assert Bytes3(t0, t1, 0, 0, 1) == Bytes3(t0, t1, 0, 0, 3)[..1];
  }

  lemma {:induction false} ShiftsJoin3(t0: int, t1: int, t2: int)
    requires 0 <= t0 < 64 && 0 <= t1 < 64 && 0 <= t2 < 64
    ensures Bytes3(t0, t1, t2, 0, 2) == [t0 * 4 + t1 / 16, t1 % 16 * 16 + t2 / 4]
  {
    ShiftsJoin(t0, t1, t2, 0);
    assert Bytes3(t0, t1, t2, 0, 2) == Bytes3(t0, t1, t2, 0, 3)[..2];
  }

  /** One group of four letters. */
  method DecodeGroup(plain: array<byte>, q: nat, t: seq<sextet>) returns (q': nat)
    requires |t| >= 4 && q + |Joined(t)| <= plain.Length
    modifies plain
    ensures q' == q + 3 && |Joined(t)| == 3 + |Joined(t[4..])|
    ensures plain[..q'] + Joined(t[4..]) == old(plain[..q]) + Joined(t)
    ensures plain[q'..] == old(plain[q'..])
  {
    var t0: int, t1: int, t2: int, t3: int := t[0], t[1], t[2], t[3];
    var three: seq<byte> := [t0 * 4 + t1 / 16, t1 % 16 * 16 + t2 / 4, t2 % 4 * 64 + t3];
    ShiftsJoin(t0, t1, t2, t3);
    assert Joined(t) == three + Joined(t[4..]);
    CopyInto(plain, q, three);
    q' := q + 3;
    Assoc(old(plain[..q]), three, Joined(t[4..]));
    assert plain[..q'] == old(plain[..q]) + three;
  }

  /** The last group, of at most four letters. */
  method DecodeEnd(plain: array<byte>, q: nat, t: seq<sextet>) returns (q': nat)
    requires |t| <= 4 && q + |Joined(t)| <= plain.Length
    modifies plain
    ensures q' == q + |Joined(t)|
    ensures plain[..q'] == old(plain[..q]) + Joined(t) && plain[q'..] == old(plain[q'..])
  {
    var last: seq<byte> := [];
    var t0: int, t1: int, t2: int := 0, 0, 0;
    if |t| > 1 {
      t0, t1 := t[0], t[1];
      last := last + [t0 * 4 + t1 / 16];
    }
    if |t| > 2 {
      t2 := t[2];
      last := last + [t1 % 16 * 16 + t2 / 4];
    }
    if |t| > 3 {
      var t3: int := t[3];
      last := last + [t2 % 4 * 64 + t3];
    }
    match |t| {
      case 2 => LastTwo(t, t0, t1);
      case 3 => LastThree(t, t0, t1, t2);
      case 4 => LastFour(t, t0, t1, t2, t[3]);
      case _ =>
    }
    CopyInto(plain, q, last);
    q' := q + |last|;
    assert plain[..q'] == old(plain[..q]) + last;
  }

  lemma {:induction false} LastTwo(t: seq<sextet>, t0: int, t1: int)
    requires |t| == 2 && t0 == t[0] && t1 == t[1]
    ensures Joined(t) == [t0 * 4 + t1 / 16]
  {
    ShiftsJoin2(t0, t1);
  }

  lemma {:induction false} LastThree(t: seq<sextet>, t0: int, t1: int, t2: int)
    requires |t| == 3 && t0 == t[0] && t1 == t[1] && t2 == t[2]
    ensures Joined(t) == [t0 * 4 + t1 / 16, t1 % 16 * 16 + t2 / 4]
  {
    ShiftsJoin3(t0, t1, t2);
  }

  lemma {:induction false} LastFour(t: seq<sextet>, t0: int, t1: int, t2: int, t3: int)
    requires |t| == 4 && t0 == t[0] && t1 == t[1] && t2 == t[2] && t3 == t[3]
    ensures Joined(t) == [t0 * 4 + t1 / 16, t1 % 16 * 16 + t2 / 4, t2 % 4 * 64 + t3]
  {
    ShiftsJoin(t0, t1, t2, t3);
    assert t == t + [];
    JoinedGroup(t, []);
  }

  /** The number of bytes that n letters stand for. */
  function JoinedCount(n: nat): nat {
    n / 4 * 3 + if n % 4 == 0 then 0 else n % 4 - 1
  }

  lemma {:induction false} DecodedCount(n: nat, left: nat)
    requires left <= 4 && left <= n && (n - left) % 4 == 0 && (left == 0 ==> n == 0)
    ensures (n + 3) / 4 * 3 - (4 - left) % 4 == JoinedCount(n) <= (n + 3) / 4 * 3
  {
    var q := (n - left) / 4;
    assert n == 4 * q + left;
    if left == 0 {
    } else if left == 4 {
      assert n / 4 == q + 1 && (n + 3) / 4 == q + 1;
    } else {
      assert n / 4 == q && n % 4 == left && (n + 3) / 4 == q + 1;
    }
  }

  /**
    `apr_base64_decode_binary`: what the string stands for, and how many bytes that is, below
    `apr_base64_decode_len`.
   */
  method Decode(plain: array<byte>, coded: seq<byte>) returns (decoded: nat)
    requires LetterCount(coded) < |coded| && plain.Length >= DecodeLen(coded) - 1
    modifies plain
    ensures decoded == |Decoded(coded)| < DecodeLen(coded)
    ensures plain[..decoded] == Decoded(coded) && plain[decoded..] == old(plain[decoded..])
  {
    var left := CountLetters(coded);
    decoded := (left + 3) / 4 * 3;
    var t := Codes(coded[..left]);
    JoinedLength(t);
    DecodedSize(|t|);
    var rest := DecodeAll(plain, t);
    DecodedCount(left, rest);
    decoded := decoded - (4 - rest) % 4;
  }

  lemma {:induction false} DecodedSize(n: nat)
    ensures JoinedCount(n) <= (n + 3) / 4 * 3
  {
    DecodedCount(n, if n == 0 then 0 else if n % 4 == 0 then 4 else n % 4);
  }

  /** The groups of four and the last group; returns the number of letters in the last one. */
  method DecodeAll(plain: array<byte>, t: seq<sextet>) returns (left: nat)
    requires |Joined(t)| <= plain.Length
    modifies plain
    ensures left <= 4 && left <= |t| && (|t| - left) % 4 == 0 && (left == 0 ==> t == [])
    ensures plain[..|Joined(t)|] == Joined(t) && plain[|Joined(t)|..] == old(plain[|Joined(t)|..])
  {
    left := |t|;
    var q := 0;
    ghost var k := 0;
    var rest := t;
    while left > 4
      invariant 0 <= k && |t| == 4 * k + left && |rest| == left && (left == 0 ==> t == [])
      invariant q + |Joined(rest)| == |Joined(t)|
      invariant plain[..q] + Joined(rest) == Joined(t) && plain[q..] == old(plain[q..])
    {
      q := DecodeGroup(plain, q, rest);
      rest, left, k := rest[4..], left - 4, k + 1;
    }
    q := DecodeEnd(plain, q, rest);
  }
}
