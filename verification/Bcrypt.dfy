/**
  The settings and hashes of bcrypt (apr-util/crypto/crypt_blowfish.c). What the cipher makes of key, salt
  and cost is a parameter.
 */
module Bcrypt {
  import opened Bytes

  type sextet = x: int | 0 <= x < 64

  // ----- Letters

  /** `BF_itoa64`. */
  function Letter(i: sextet): byte {
    if i < 2 then i + 46 else if i < 28 then i + 63 else if i < 54 then i + 69 else i - 6
  }

  /** `BF_atoi64`; 64 stands for what is not a letter. */
  function Code(c: int): (i: int)
    ensures 0 <= i <= 64
  {
    if 46 <= c <= 47 then c - 46
    else if 65 <= c <= 90 then c - 63
    else if 97 <= c <= 122 then c - 69
    else if 48 <= c <= 57 then c + 6
    else 64
  }

  lemma {:induction false} LetterCode(i: sextet)
    ensures Code(Letter(i)) == i
  {
  }

  /** `BF_encode`: groups of 24 bits in four letters, without padding. */
  function Coded(s: seq<byte>): seq<byte> {
    if s == [] then []
    else
      var b0: int := s[0];
      if |s| == 1 then [Letter(b0 / 4), Letter(b0 % 4 * 16)]
      else
        var b1: int := s[1];
        if |s| == 2 then [Letter(b0 / 4), Letter(b0 % 4 * 16 + b1 / 16), Letter(b1 % 16 * 4)]
        else
          var b2: int := s[2];
          [Letter(b0 / 4), Letter(b0 % 4 * 16 + b1 / 16), Letter(b1 % 16 * 4 + b2 / 64), Letter(b2 % 64)]
            + Coded(s[3..])
  }

  /** A character of a string, or the NUL behind it. */
  function At(s: seq<byte>, i: nat): byte {
    if i < |s| then s[i] else 0
  }

  /** The bytes coded in the first letters of a string; none if a letter is missing. */
  function Salt(src: seq<byte>, size: nat): Option<seq<byte>>
    decreases size
  {
    var c1, c2, c3, c4 := Code(At(src, 0)), Code(At(src, 1)), Code(At(src, 2)), Code(At(src, 3));
    if size == 0 then Some([])
    else if c1 > 63 || c2 > 63 then None
    else if size == 1 then Some([c1 * 4 + c2 / 16])
    else if c3 > 63 then None
    else if size == 2 then Some([c1 * 4 + c2 / 16, c2 % 16 * 16 + c3 / 4])
    else if c4 > 63 then None
    else
      var rest := Salt(src[4..], size - 3);
      if rest.None? then None else Some([c1 * 4 + c2 / 16, c2 % 16 * 16 + c3 / 4, c3 % 4 * 64 + c4] + rest.value)
  }

  // ----- Coding and decoding

  /** The bits of three bytes in four sextets. */
  lemma {:induction false} Recombine(b0: int, b1: int, b2: int)
    requires 0 <= b0 < 256 && 0 <= b1 < 256 && 0 <= b2 < 256
    ensures b0 / 4 * 4 + (b0 % 4 * 16 + b1 / 16) / 16 == b0
    ensures (b0 % 4 * 16 + b1 / 16) % 16 * 16 + (b1 % 16 * 4 + b2 / 64) / 4 == b1
    ensures (b1 % 16 * 4 + b2 / 64) % 4 * 64 + b2 % 64 == b2
  {
    assert (b0 % 4 * 16 + b1 / 16) / 16 == b0 % 4 && (b0 % 4 * 16 + b1 / 16) % 16 == b1 / 16;
    assert (b1 % 16 * 4 + b2 / 64) / 4 == b1 % 16 && (b1 % 16 * 4 + b2 / 64) % 4 == b2 / 64;
  }

  /** The codes of a group, as `Salt` reads them. */
  lemma {:induction false} SaltGroup(src: seq<byte>, t1: int, t2: int, t3: int, t4: int, size: nat, rest: seq<byte>)
    requires |src| >= 4
    requires size >= 3
    requires Code(src[0]) == t1 < 64
    requires Code(src[1]) == t2 < 64
    requires Code(src[2]) == t3 < 64
    requires Code(src[3]) == t4 < 64
    requires Salt(src[4..], size - 3) == Some(rest)
    ensures Salt(src, size) == Some([t1 * 4 + t2 / 16, t2 % 16 * 16 + t3 / 4, t3 % 4 * 64 + t4] + rest)
  {
  }

  /** Bytes are read back from their letters, whatever follows them. */
  lemma {:induction false} SaltRoundTrip(s: seq<byte>, tail: seq<byte>)
    ensures Salt(Coded(s) + tail, |s|) == Some(s)
    decreases |s|
  {
    var src := Coded(s) + tail;
    if |s| == 1 {
      SaltOne(s, src);
    } else if |s| == 2 {
      SaltTwo(s, src);
    } else if |s| >= 3 {
      assert src[4..] == Coded(s[3..]) + tail;
      SaltRoundTrip(s[3..], tail);
      SaltThree(s, src);
    }
  }

  lemma {:induction false} SaltOne(s: seq<byte>, src: seq<byte>)
    requires |s| == 1 && Coded(s) <= src
    ensures Salt(src, 1) == Some(s)
  {
    var b0: int := s[0];
    LetterCode(b0 / 4);
    LetterCode(b0 % 4 * 16);
    Recombine(b0, 0, 0);
    assert src[0] == Coded(s)[0] && src[1] == Coded(s)[1];
    assert s == [s[0]];
  }

  lemma {:induction false} SaltTwo(s: seq<byte>, src: seq<byte>)
    requires |s| == 2 && Coded(s) <= src
    ensures Salt(src, 2) == Some(s)
  {
    var b0: int, b1: int := s[0], s[1];
    LetterCode(b0 / 4);
    LetterCode(b0 % 4 * 16 + b1 / 16);
    LetterCode(b1 % 16 * 4);
    Recombine(b0, b1, 0);
    assert src[0] == Coded(s)[0] && src[1] == Coded(s)[1] && src[2] == Coded(s)[2];
    assert s == [s[0], s[1]];
  }

  lemma {:induction false} GroupRead(src: seq<byte>, b0: int, b1: int, b2: int, size: nat, rest: seq<byte>)
    requires 0 <= b0 < 256 && 0 <= b1 < 256 && 0 <= b2 < 256 && |src| >= 4 && size >= 3
    requires src[0] == Letter(b0 / 4) && src[1] == Letter(b0 % 4 * 16 + b1 / 16)
    requires src[2] == Letter(b1 % 16 * 4 + b2 / 64) && src[3] == Letter(b2 % 64)
    requires Salt(src[4..], size - 3) == Some(rest)
    ensures Salt(src, size) == Some([b0, b1, b2] + rest)
  {
    LetterCode(b0 / 4);
    LetterCode(b0 % 4 * 16 + b1 / 16);
    LetterCode(b1 % 16 * 4 + b2 / 64);
    LetterCode(b2 % 64);
    Recombine(b0, b1, b2);
    SaltGroup(src, b0 / 4, b0 % 4 * 16 + b1 / 16, b1 % 16 * 4 + b2 / 64, b2 % 64, size, rest);
  }

  lemma {:induction false} SaltThree(s: seq<byte>, src: seq<byte>)
    requires |s| >= 3 && |src| >= 4 && Coded(s)[..4] == src[..4] && Salt(src[4..], |s| - 3) == Some(s[3..])
    ensures Salt(src, |s|) == Some(s)
  {
    FirstFour(src, Coded(s));
    GroupRead(src, s[0], s[1], s[2], |s|, s[3..]);
    assert s == [s[0], s[1], s[2]] + s[3..];
  }

  lemma {:induction false} FirstFour(s: seq<byte>, t: seq<byte>)
    requires |s| >= 4 && |t| >= 4 && s[..4] == t[..4]
    ensures s[0] == t[0] && s[1] == t[1] && s[2] == t[2] && s[3] == t[3]
  {
    assert forall i :: 0 <= i < 4 ==> s[i] == s[..4][i] == t[..4][i] == t[i];
  }

  lemma {:induction false} CodeLetter(c: byte)
    requires Code(c) < 64
    ensures Letter(Code(c)) == c
  {
  }

  /** The last of the letters for `size` bytes has no bit set that is not used. */
  predicate LastClean(src: seq<byte>, size: nat)
    requires |src| == LettersFor(size)
  {
    && (size % 3 == 1 ==> Code(src[|src| - 1]) % 16 == 0)
    && (size % 3 == 2 ==> Code(src[|src| - 1]) % 4 == 0)
  }

  /** Letters with a clean last one are written again from the bytes they are read as. */
  lemma {:induction false} CodedAgain(src: seq<byte>, size: nat)
    requires |src| == LettersFor(size) && Salt(src, size).Some? && LastClean(src, size)
    ensures |Salt(src, size).value| == size && Coded(Salt(src, size).value) == src
    decreases size
  {
    if size >= 3 {
      TailReads(src, size);
      CodedGroup(src, size);
      CodedAgain(src[4..], size - 3);
      assert src == src[..4] + src[4..];
    } else if size > 0 {
      CodedEnd(src, size);
    }
  }

  /** The letters of three bytes that were read from four. */
  lemma {:induction false} Regroup(c1: sextet, c2: sextet, c3: sextet, c4: sextet)
    ensures var b0, b1, b2 := c1 * 4 + c2 / 16, c2 % 16 * 16 + c3 / 4, c3 % 4 * 64 + c4;
      && 0 <= b0 < 256 && 0 <= b1 < 256 && 0 <= b2 < 256
      && b0 / 4 == c1 && b0 % 4 * 16 + b1 / 16 == c2 && b1 % 16 * 4 + b2 / 64 == c3 && b2 % 64 == c4
  {
    assert (c2 % 16 * 16 + c3 / 4) / 16 == c2 % 16 && (c2 % 16 * 16 + c3 / 4) % 16 == c3 / 4;
    assert (c3 % 4 * 64 + c4) / 64 == c3 % 4;
  }

  lemma {:induction false} TailReads(src: seq<byte>, size: nat)
    requires size >= 3 && |src| == LettersFor(size) && Salt(src, size).Some?
    ensures |src| >= 4 && Salt(src[4..], size - 3).Some? && |src[4..]| == LettersFor(size - 3)
    ensures LastClean(src, size) ==> LastClean(src[4..], size - 3)
  {
    var rest := Salt(src[4..], size - 3);
    assert rest.Some?;
  }

  lemma {:induction false} CodedGroup(src: seq<byte>, size: nat)
    requires size >= 3 && |src| >= 4 && Salt(src, size).Some?
    ensures Salt(src[4..], size - 3).Some?
    ensures var r := Salt(src, size).value;
      |r| >= 3 && r[3..] == Salt(src[4..], size - 3).value && Coded(r) == src[..4] + Coded(r[3..])
  {
    var c1, c2, c3, c4 := Code(src[0]), Code(src[1]), Code(src[2]), Code(src[3]);
    var r, rest := Salt(src, size).value, Salt(src[4..], size - 3).value;
    assert r == [c1 * 4 + c2 / 16, c2 % 16 * 16 + c3 / 4, c3 % 4 * 64 + c4] + rest;
    assert r[3..] == rest;
    Regroup(c1, c2, c3, c4);
    GroupAgain(src, r, r[0], r[1], r[2], c1, c2, c3, c4);
  }

  lemma {:induction false} GroupAgain(src: seq<byte>, r: seq<byte>, b0: int, b1: int, b2: int,
                                      c1: sextet, c2: sextet, c3: sextet, c4: sextet)
    requires |src| >= 4 && |r| >= 3 && r[0] == b0 && r[1] == b1 && r[2] == b2
    requires Code(src[0]) == c1 && Code(src[1]) == c2 && Code(src[2]) == c3 && Code(src[3]) == c4
    requires b0 / 4 == c1 && b0 % 4 * 16 + b1 / 16 == c2 && b1 % 16 * 4 + b2 / 64 == c3 && b2 % 64 == c4
    ensures Coded(r) == src[..4] + Coded(r[3..])
  {
    FourLetters(src, c1, c2, c3, c4);
  }

  lemma {:induction false} FourLetters(src: seq<byte>, c1: sextet, c2: sextet, c3: sextet, c4: sextet)
    requires |src| >= 4
    requires Code(src[0]) == c1 && Code(src[1]) == c2 && Code(src[2]) == c3 && Code(src[3]) == c4
    ensures src[..4] == [Letter(c1), Letter(c2), Letter(c3), Letter(c4)]
  {
    CodeLetter(src[0]);
    CodeLetter(src[1]);
    CodeLetter(src[2]);
    CodeLetter(src[3]);
  }

  lemma {:induction false} CodedEnd(src: seq<byte>, size: nat)
    requires 1 <= size <= 2 && |src| == LettersFor(size) && Salt(src, size).Some? && LastClean(src, size)
    ensures |Salt(src, size).value| == size && Coded(Salt(src, size).value) == src
  {
    if size == 1 {
      CodedOne(src);
    } else {
      CodedTwo(src);
    }
  }

  lemma {:induction false} CodedOne(src: seq<byte>)
    requires |src| == 2 && Salt(src, 1).Some? && Code(src[1]) % 16 == 0
    ensures |Salt(src, 1).value| == 1 && Coded(Salt(src, 1).value) == src
  {
    CodeLetter(src[0]);
    CodeLetter(src[1]);
    Regroup(Code(src[0]), Code(src[1]), 0, 0);
  }

  lemma {:induction false} CodedTwo(src: seq<byte>)
    requires |src| == 3 && Salt(src, 2).Some? && Code(src[2]) % 4 == 0
    ensures |Salt(src, 2).value| == 2 && Coded(Salt(src, 2).value) == src
  {
    CodeLetter(src[0]);
    CodeLetter(src[1]);
    CodeLetter(src[2]);
    Regroup(Code(src[0]), Code(src[1]), Code(src[2]), 0);
  }

  lemma {:induction false} CodedLength(s: seq<byte>)
    ensures |Coded(s)| == LettersFor(|s|) && LastClean(Coded(s), |s|)
    decreases |s|
  {
    if |s| >= 3 {
      CodedLength(s[3..]);
    } else if s != [] {
      LastCode(s);
    }
  }

  lemma {:induction false} LastCode(s: seq<byte>)
    requires 1 <= |s| <= 2
    ensures |Coded(s)| == LettersFor(|s|) && LastClean(Coded(s), |s|)
  {
    var b0: int := s[0];
    LetterCode(b0 % 4 * 16);
    if |s| == 2 {
      var b1: int := s[1];
      LetterCode(b1 % 16 * 4);
    }
  }

  /** A letter with the bits that a last one does not use cleared. */
  function Canon(c: byte): byte
    requires Code(c) < 64
  {
    Letter(Code(c) / 16 * 16)
  }

  function LettersFor(size: nat): nat { size / 3 * 4 + if size % 3 == 0 then 0 else size % 3 + 1 }

  /** Salts that can be read are long enough, and all letters. */
  lemma {:induction false} SaltLetters(src: seq<byte>, size: nat, i: nat)
    requires Salt(src, size).Some? && i < LettersFor(size)
    ensures i < |src| && Code(src[i]) < 64
    decreases size
  {
    if i >= 4 {
      SaltLetters(src[4..], size - 3, i - 4);
    }
  }

  lemma {:induction false} SaltStep(src: seq<byte>, src': seq<byte>, size: nat)
    requires size >= 3
    requires |src| >= 4
    requires |src'| >= 4
    requires src[..4] == src'[..4]
    requires Salt(src[4..], size - 3) == Salt(src'[4..], size - 3)
    ensures Salt(src, size) == Salt(src', size)
  {
    FirstFour(src, src');
  }

  /** The last letter of a salt may be put in canonical form. */
  lemma {:induction false} SaltCanon(src: seq<byte>, size: nat, k: nat, tail: seq<byte>)
    requires size % 3 == 1 && k == LettersFor(size) - 1 && Salt(src, size).Some? && k < |src| && Code(src[k]) < 64
    ensures Salt(src[..k] + [Canon(src[k])] + tail, size) == Salt(src, size)
    decreases size
  {
    var src' := src[..k] + [Canon(src[k])] + tail;
    if size == 1 {
      SaltCanonOne(src, src');
    } else {
      var rest := src[4..];
      assert src'[4..] == rest[..k - 4] + [Canon(rest[k - 4])] + tail;
      SaltCanon(rest, size - 3, k - 4, tail);
      assert src[..4] == src'[..4];
      SaltStep(src, src', size);
    }
  }

  lemma {:induction false} SaltCanonOne(src: seq<byte>, src': seq<byte>)
    requires |src| >= 2 && |src'| >= 2 && src'[0] == src[0] && Code(src[1]) < 64 && src'[1] == Canon(src[1])
    ensures Salt(src', 1) == Salt(src, 1)
  {
    LetterCode(Code(src[1]) / 16 * 16);
  }

  // ----- The loops

  /** The letters of the first group, as `BF_encode` works them out with a carry. */
  method GroupLetters(src: seq<byte>) returns (w: seq<byte>, rest: seq<byte>)
    requires src != []
    ensures Coded(src) == w + Coded(rest) && |rest| < |src| && w != []
  {
    var c1: int := src[0];
    w := [Letter(c1 / 4)];
    c1 := c1 % 4 * 16;
    rest := [];
    if |src| == 1 {
      w := w + [Letter(c1)];
    } else {
      var c2: int := src[1];
      w := w + [Letter(c1 + c2 / 16)];
      c1 := c2 % 16 * 4;
      if |src| == 2 {
        w := w + [Letter(c1)];
      } else {
        c2 := src[2];
        w := w + [Letter(c1 + c2 / 64), Letter(c2 % 64)];
        rest := src[3..];
      }
    }
  }

  /** `BF_encode` */
  method Encode(dst: array<byte>, at: nat, src: seq<byte>) returns (p: nat)
    requires at + |Coded(src)| <= dst.Length
    modifies dst
    ensures p == at + |Coded(src)| && dst[..p] == old(dst[..at]) + Coded(src)
  {
    p := at;
    var rest := src;
    ghost var done: seq<byte> := [];
    while rest != []
      invariant at <= p == at + |done| && Coded(src) == done + Coded(rest) && dst[..p] == old(dst[..at]) + done
      decreases |rest|
    {
      var w;
      w, rest := GroupLetters(rest);
      Assoc(done, w, Coded(rest));
      Assoc(old(dst[..at]), done, w);
      p := Append(dst, p, w);
      done := done + w;
    }
  }

  method Append(dst: array<byte>, p: nat, w: seq<byte>) returns (p': nat)
    requires p + |w| <= dst.Length
    modifies dst
    ensures p' == p + |w| && dst[..p'] == old(dst[..p]) + w
  {
    CopyInto(dst, p, w);
    p' := p + |w|;
  }

  function Prepend(s: seq<byte>, r: Option<seq<byte>>): Option<seq<byte>> {
    if r.None? then None else Some(s + r.value)
  }

  /** The bytes of the first group of letters, if they are letters. */
  method GroupBytes(src: seq<byte>, size: nat) returns (ok: bool, w: seq<byte>, rest: seq<byte>)
    requires size > 0
    ensures |w| <= size
    ensures if ok then w != [] && Salt(src, size) == Prepend(w, Salt(rest, size - |w|)) else Salt(src, size).None?
  {
    var c1, c2, c3, c4 := Code(At(src, 0)), Code(At(src, 1)), Code(At(src, 2)), Code(At(src, 3));
    w, rest := [], [];
    if c1 > 63 || c2 > 63 {
      return false, w, rest;
    }
    w := [c1 * 4 + c2 / 16];
    if size > 1 {
      if c3 > 63 {
        return false, w, rest;
      }
      w := [c1 * 4 + c2 / 16, c2 % 16 * 16 + c3 / 4];
      if size > 2 {
        if c4 > 63 {
          return false, w, rest;
        }
        w := [c1 * 4 + c2 / 16, c2 % 16 * 16 + c3 / 4, c3 % 4 * 64 + c4];
        rest := src[4..];
      }
    }
    ok := true;
    assert size < 3 ==> Salt(rest, 0) == Some([]) && w + [] == w;
  }

  /** `BF_decode`: whether the salt could be read, and the salt. */
  method Decode(dst: array<byte>, src: seq<byte>) returns (ok: bool)
    modifies dst
    ensures ok <==> Salt(src, dst.Length).Some?
    ensures ok ==> dst[..] == Salt(src, dst.Length).value
  {
    var rest, q := src, 0;
    PrependNothing(dst[..0], Salt(src, dst.Length));
    while q < dst.Length
      invariant 0 <= q <= dst.Length && Salt(src, dst.Length) == Prepend(dst[..q], Salt(rest, dst.Length - q))
      decreases dst.Length - q
    {
      var w;
      ghost var done := dst[..q];
      ok, w, rest := GroupBytes(rest, dst.Length - q);
      if !ok {
        return;
      }
      PrependTwice(done, w, Salt(rest, dst.Length - q - |w|));
      q := Append(dst, q, w);
    }
    ok := true;
    assert dst[..q] == dst[..] && dst[..] + [] == dst[..];
  }

  lemma {:induction false} PrependNothing(a: seq<byte>, r: Option<seq<byte>>)
    requires a == []
    ensures Prepend(a, r) == r
  {
    assert r.Some? ==> a + r.value == r.value;
  }

  lemma {:induction false} PrependTwice(a: seq<byte>, b: seq<byte>, r: Option<seq<byte>>)
    ensures Prepend(a, Prepend(b, r)) == Prepend(a + b, r)
  {
    if r.Some? {
      Assoc(a, b, r.value);
    }
  }

  // ----- Settings and hashes

  const DOLLAR: byte := 36
  const TWO: byte := 50

  /** What the cipher makes of key, salt, flags and cost: the 23 bytes that are written. */
  type Cipher = f: (seq<byte>, seq<byte>, int, int) -> seq<byte> | forall k, s, g, c :: |f(k, s, g, c)| == 23
    witness (k, s, g, c) => seq(23, i => 0)

  /** The flags by the third character of a setting; none for what is not supported. */
  function Flags(c: int): int {
    if c == 97 then 2 else if c == 120 then 1 else if c == 121 then 4 else 0
  }

  function Cost(s: seq<byte>): int { (At(s, 4) as int - 48) * 10 + (At(s, 5) as int - 48) }

  /** The seven characters in front of a salt. */
  predicate GoodHeader(s: seq<byte>) {
    && At(s, 0) == DOLLAR && At(s, 1) == TWO && Flags(At(s, 2)) != 0 && At(s, 3) == DOLLAR
    && 48 <= At(s, 4) <= 51 && 48 <= At(s, 5) <= 57 && (At(s, 4) == 51 ==> At(s, 5) <= 49) && At(s, 6) == DOLLAR
  }

  function SaltOf(s: seq<byte>): Option<seq<byte>> {
    if |s| < 7 then None else Salt(s[7..], 16)
  }

  predicate Accepted(s: seq<byte>, size: nat, minCost: int) {
    size >= 61 && GoodHeader(s) && Cost(s) >= minCost && SaltOf(s).Some?
  }

  lemma {:induction false} AcceptedLong(s: seq<byte>)
    requires SaltOf(s).Some?
    ensures |s| >= 29 && Code(s[28]) < 64
  {
    SaltLetters(s[7..], 16, 21);
  }

  /**
    The hash of a key under a setting: the setting, its last letter in canonical form, and the code of the
    cipher's bytes.
   */
  function Hash(f: Cipher, key: seq<byte>, s: seq<byte>): seq<byte>
    requires SaltOf(s).Some?
  {
    AcceptedLong(s);
    s[..28] + [Canon(s[28])] + Coded(f(key, SaltOf(s).value, Flags(At(s, 2)), Cost(s)))
  }

  /** `BF_crypt`, where minCost is the logarithm of its last argument. */
  function Crypt(f: Cipher, key: seq<byte>, s: seq<byte>, size: nat, minCost: int): Option<seq<byte>> {
    if Accepted(s, size, minCost) then Some(Hash(f, key, s)) else None
  }

  lemma {:induction false} HashSalt(f: Cipher, key: seq<byte>, s: seq<byte>)
    requires SaltOf(s).Some?
    ensures SaltOf(Hash(f, key, s)) == SaltOf(s)
  {
    AcceptedLong(s);
    var src, tail := s[7..], Coded(f(key, SaltOf(s).value, Flags(At(s, 2)), Cost(s)));
    SaltCanon(src, 16, 21, tail);
    assert Hash(f, key, s)[7..] == src[..21] + [Canon(src[21])] + tail;
  }

  /** A hash holds the bytes that the cipher makes of the key, and of the salt, flags and cost of the setting. */
  lemma {:induction false} HashHolds(f: Cipher, key: seq<byte>, s: seq<byte>)
    requires SaltOf(s).Some?
    ensures |Hash(f, key, s)| == 60
    ensures Salt(Hash(f, key, s)[29..], 23) == Some(f(key, SaltOf(s).value, Flags(At(s, 2)), Cost(s)))
  {
    AcceptedLong(s);
    var made := f(key, SaltOf(s).value, Flags(At(s, 2)), Cost(s));
    CodedLength(made);
    SaltRoundTrip(made, []);
    assert Hash(f, key, s)[29..] == Coded(made) + [];
  }

  /** A string is the hash of a key under itself exactly when it has this form and holds these bytes. */
  lemma {:induction false} IsHashIff(f: Cipher, key: seq<byte>, h: seq<byte>)
    requires SaltOf(h).Some?
    ensures Hash(f, key, h) == h <==>
      && |h| == 60 && Code(h[28]) % 16 == 0 && Code(h[59]) % 4 == 0
      && Salt(h[29..], 23) == Some(f(key, SaltOf(h).value, Flags(At(h, 2)), Cost(h)))
  {
    AcceptedLong(h);
    var made := f(key, SaltOf(h).value, Flags(At(h, 2)), Cost(h));
    CanonClean(h[28]);
    CodedIff(h[29..], made);
    SameParts(h, Canon(h[28]), Coded(made));
  }

  /** Letters are those of 23 bytes exactly when they are clean and read as these bytes. */
  lemma {:induction false} CodedIff(src: seq<byte>, made: seq<byte>)
    requires |made| == 23
    ensures src == Coded(made) <==> |src| == 31 && Code(src[30]) % 4 == 0 && Salt(src, 23) == Some(made)
  {
    CodedLength(made);
    SaltRoundTrip(made, []);
    assert Coded(made) + [] == Coded(made);
    if |src| == 31 && Code(src[30]) % 4 == 0 && Salt(src, 23) == Some(made) {
      CodedAgain(src, 23);
    }
  }

  lemma {:induction false} SameParts(h: seq<byte>, c: byte, code: seq<byte>)
    requires |h| >= 29
    ensures h[..28] + [c] + code == h <==> c == h[28] && h[29..] == code
  {
    var g := h[..28] + [c] + code;
    assert g[28] == c && g[29..] == code;
    assert h == h[..28] + [h[28]] + h[29..];
  }

  lemma {:induction false} CanonClean(c: byte)
    requires Code(c) < 64
    ensures Canon(c) == c <==> Code(c) % 16 == 0
  {
    LetterCode(Code(c) / 16 * 16);
    CodeLetter(c);
  }

  /** A hash used as a setting gives itself: it names the same salt, cost and kind. */
  lemma {:induction false} HashAsSetting(f: Cipher, key: seq<byte>, s: seq<byte>, size: nat, minCost: int)
    requires Accepted(s, size, minCost)
    ensures Crypt(f, key, Hash(f, key, s), size, minCost) == Some(Hash(f, key, s))
  {
    var h := Hash(f, key, s);
    AcceptedLong(s);
    HashSalt(f, key, s);
    HeaderKept(s, h);
    LetterCode(Code(s[28]) / 16 * 16);
    CanonTwice(s[28]);
    assert h[..28] == s[..28];
  }

  lemma {:induction false} CanonTwice(c: byte)
    requires Code(c) < 64
    ensures Code(Canon(c)) < 64 && Canon(Canon(c)) == Canon(c)
  {
    LetterCode(Code(c) / 16 * 16);
  }

  lemma {:induction false} HeaderKept(s: seq<byte>, h: seq<byte>)
    requires |s| >= 28 && |h| >= 28 && s[..28] == h[..28]
    ensures GoodHeader(s) == GoodHeader(h) && Cost(s) == Cost(h) && At(s, 2) == At(h, 2)
  {
    assert forall i :: 0 <= i < 28 ==> s[i] == s[..28][i] == h[..28][i] == h[i];
  }

  // ----- New settings

  /** `_crypt_gensalt_blowfish_rn`: a setting for a cost and 16 bytes of salt. */
  function NewSetting(kind: byte, count: nat, input: seq<byte>): seq<byte>
    requires count < 100 && |input| >= 16
  {
    Header(kind, count) + Coded(input[..16])
  }

  function Header(kind: byte, count: nat): seq<byte>
    requires count < 100
  {
    [DOLLAR, TWO, kind, DOLLAR, 48 + count / 10, 48 + count % 10, DOLLAR]
  }

  function GenSalt(kind: byte, count: nat, input: seq<byte>, outSize: nat): Option<seq<byte>> {
    if |input| < 16 || outSize < 30 then None
    else if (count != 0 && (count < 4 || count > 31)) || (kind != 97 && kind != 121) then None
    else Some(NewSetting(kind, if count == 0 then 5 else count, input))
  }

  lemma {:induction false} NewHeader(kind: byte, count: nat, input: seq<byte>)
    requires (kind == 97 || kind == 121) && 4 <= count <= 31 && |input| >= 16
    ensures GoodHeader(NewSetting(kind, count, input)) && Cost(NewSetting(kind, count, input)) == count
  {
    var q, r := count / 10, count % 10;
    assert count == 10 * q + r && 0 <= q <= 3 && 0 <= r <= 9;
  }

  /** The headers that are accepted are those that can be written for one of the three kinds and a cost below 32. */
  lemma {:induction false} HeaderIff(s: seq<byte>)
    ensures GoodHeader(s) <==>
      exists kind: byte, cost: nat :: kind in {97, 120, 121} && cost <= 31 && Header(kind, cost) <= s
  {
    if GoodHeader(s) {
      var kind, q, r := s[2], s[4] - 48, s[5] - 48;
      var cost: nat := 10 * q + r;
      assert cost / 10 == q && cost % 10 == r;
      assert s[..7] == Header(kind, cost);
    }
    if kind: byte, cost: nat :| kind in {97, 120, 121} && cost <= 31 && Header(kind, cost) <= s {
      var h := Header(kind, cost);
      assert cost / 10 <= 3 && (cost / 10 == 3 ==> cost % 10 <= 1);
      assert forall i :: 0 <= i < 7 ==> s[i] == h[i];
    }
  }

  /** A new setting is accepted and holds the salt. */
  lemma {:induction false} NewSettingGood(kind: byte, count: nat, input: seq<byte>, size: nat)
    requires (kind == 97 || kind == 121) && 4 <= count <= 31 && |input| >= 16 && size >= 61
    ensures var s := NewSetting(kind, count, input);
      Accepted(s, size, 4) && SaltOf(s) == Some(input[..16]) && Cost(s) == count
  {
    var s, code := NewSetting(kind, count, input), Coded(input[..16]);
    assert s[7..] == code + [];
    SaltRoundTrip(input[..16], []);
    NewHeader(kind, count, input);
  }
}
