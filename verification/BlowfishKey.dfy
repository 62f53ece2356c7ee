/** Key preparation of bcrypt: `BF_set_key` (apr-util/crypto/crypt_blowfish.c), on 32-bit words. */
module BlowfishKey {

  const WORDS := 18

  predicate IsKey(key: seq<bv8>) { forall i :: 0 <= i < |key| ==> key[i] != 0 }

  // ----- Words of the key

  /** The key with its NUL, read round and round. */
  function KeyByte(key: seq<bv8>, n: nat): bv8 {
    (key + [0])[n % (|key| + 1)]
  }

  function SignExtended(b: bv8): bv32 {
    if b & 0x80 != 0 then b as bv32 | 0xFFFF_FF00 else b as bv32
  }

  function Extension(b: bv8, bug: bool): bv32 { if bug then SignExtended(b) else b as bv32 }

  /** The first n bytes shifted into a word, as meant or with the old sign extension. */
  function Shifted(bs: seq<bv8>, n: nat, bug: bool): bv32
    requires n <= |bs|
  {
    if n == 0 then 0 else Push(Shifted(bs, n - 1, bug), Extension(bs[n - 1], bug))
  }

  function WordBytes(key: seq<bv8>, i: nat): (bs: seq<bv8>)
    ensures |bs| == 4
  {
    seq(4, j requires 0 <= j < 4 => KeyByte(key, 4 * i + j))
  }

  function Word(key: seq<bv8>, i: nat, bug: bool): bv32 { Shifted(WordBytes(key, i), 4, bug) }

  /** One of the first n bytes of a word, but not the first, is sign extended. */
  ghost predicate Extends(bs: seq<bv8>, n: nat)
    requires n <= |bs|
  {
    exists j :: 1 <= j < n && bs[j] & 0x80 != 0
  }

  ghost predicate Same(key: seq<bv8>, i: nat) { Word(key, i, true) == Word(key, i, false) }

  ghost predicate WordExtends(key: seq<bv8>, i: nat) { Extends(WordBytes(key, i), 4) }

  /** The old sign extension makes no difference to the key although it has happened. */
  ghost predicate Collides(key: seq<bv8>) { SameTo(key, WORDS) && ExtendsTo(key, WORDS) }

  ghost predicate SameTo(key: seq<bv8>, n: nat) { forall i :: 0 <= i < n ==> Same(key, i) }

  ghost predicate ExtendsTo(key: seq<bv8>, n: nat) { exists i :: 0 <= i < n && WordExtends(key, i) }

  function Push(w: bv32, x: bv32): bv32 { (w << 8) | x }

  function Four(b0: bv8, b1: bv8, b2: bv8, b3: bv8, bug: bool): bv32 {
    Push(Push(Push(Push(0, Extension(b0, bug)), Extension(b1, bug)), Extension(b2, bug)), Extension(b3, bug))
  }

  lemma {:induction false} ShiftedNext(bs: seq<bv8>, n: nat, b: bv8, bug: bool)
    requires n < |bs| && bs[n] == b
    ensures Shifted(bs, n + 1, bug) == Push(Shifted(bs, n, bug), Extension(b, bug))
  {
  }

  /** A sign extension that makes no difference has met a byte of ones. */
  lemma {:induction false} SameMeetsOnes(b0: bv8, b1: bv8, b2: bv8, b3: bv8)
    requires b1 & 0x80 != 0 || b2 & 0x80 != 0 || b3 & 0x80 != 0
    requires Four(b0, b1, b2, b3, true) == Four(b0, b1, b2, b3, false)
    ensures b0 == 0xFF || b1 == 0xFF || b2 == 0xFF
  {
  }

  lemma {:induction false} ShiftedFour(bs: seq<bv8>, b0: bv8, b1: bv8, b2: bv8, b3: bv8, bug: bool)
    requires |bs| == 4 && bs[0] == b0 && bs[1] == b1 && bs[2] == b2 && bs[3] == b3
    ensures Shifted(bs, 4, bug) == Four(b0, b1, b2, b3, bug)
  {
    ShiftedNext(bs, 0, b0, bug);
    ShiftedNext(bs, 1, b1, bug);
    ShiftedNext(bs, 2, b2, bug);
    ShiftedNext(bs, 3, b3, bug);
  }

  /** A word as it is meant: the next four bytes of the key, the first in the highest place. */
  lemma {:induction false} WordIs(key: seq<bv8>, i: nat)
    ensures Word(key, i, false) == InPlaces(KeyByte(key, 4 * i), KeyByte(key, 4 * i + 1), KeyByte(key, 4 * i + 2),
                                            KeyByte(key, 4 * i + 3))
  {
    var bs := WordBytes(key, i);
    ShiftedFour(bs, bs[0], bs[1], bs[2], bs[3], false);
    PlacesAre(bs[0], bs[1], bs[2], bs[3]);
    assert bs[0] == KeyByte(key, 4 * i + 0);
  }

  function InPlaces(b0: bv8, b1: bv8, b2: bv8, b3: bv8): bv32 {
    (b0 as bv32) * 0x100_0000 + (b1 as bv32) * 0x1_0000 + (b2 as bv32) * 0x100 + b3 as bv32
  }

  lemma {:induction false} PlacesAre(b0: bv8, b1: bv8, b2: bv8, b3: bv8)
    ensures Four(b0, b1, b2, b3, false) == InPlaces(b0, b1, b2, b3)
  {
  }

  /** Only keys with a byte of ones collide. */
  lemma {:induction false} CollidesHasOnes(key: seq<bv8>)
    requires Collides(key)
    ensures 0xFF in key
  {
    var i :| 0 <= i < WORDS && WordExtends(key, i);
    assert Same(key, i);
    var bs := WordBytes(key, i);
    ShiftedFour(bs, bs[0], bs[1], bs[2], bs[3], true);
    ShiftedFour(bs, bs[0], bs[1], bs[2], bs[3], false);
    SameMeetsOnes(bs[0], bs[1], bs[2], bs[3]);
    var j :| 0 <= j < 3 && bs[j] == 0xFF;
    assert KeyByte(key, 4 * i + j) == 0xFF;
  }

  /** A key that collides: each of its words is made of the same four bytes. */
  lemma {:induction false} OnesCollide()
    ensures IsKey([0xFF, 0xFF, 0xFF]) && Collides([0xFF, 0xFF, 0xFF])
  {
    var key: seq<bv8> := [0xFF, 0xFF, 0xFF];
    forall i | 0 <= i < WORDS ensures Same(key, i) && WordExtends(key, i) {
      OnesWord(key, i);
    }
    assert WordExtends(key, 0);
  }

  lemma {:induction false} OnesWord(key: seq<bv8>, i: nat)
    requires key == [0xFF, 0xFF, 0xFF]
    ensures Same(key, i) && WordExtends(key, i)
  {
    var bs := WordBytes(key, i);
    forall j | 0 <= j < 4 ensures bs[j] == (key + [0])[j] {
      var m := |key| + 1;
      assert 4 * i + j == i * m + j;
      ModIs(i, j, m);
      assert bs[j] == KeyByte(key, 4 * i + j);
    }
    assert (key + [0])[3] == 0;
    ShiftedFour(bs, 0xFF, 0xFF, 0xFF, 0, true);
    ShiftedFour(bs, 0xFF, 0xFF, 0xFF, 0, false);
    OnesSame();
    OnesSigned(bs[1]);
  }

  lemma {:induction false} OnesSame()
    ensures Four(0xFF, 0xFF, 0xFF, 0, true) == Four(0xFF, 0xFF, 0xFF, 0, false)
  {
  }

  lemma {:induction false} OnesSigned(b: bv8)
    requires b == 0xFF
    ensures b & 0x80 != 0
  {
  }

  // ----- The code

  lemma {:induction false} ModNext(n: nat, m: nat)
    requires m > 0
    ensures (n + 1) % m == if n % m == m - 1 then 0 else n % m + 1
  {
    var q, r := n / m, n % m;
    assert n == q * m + r;
    if r == m - 1 {
      assert n + 1 == (q + 1) * m;
      ModIs(q + 1, 0, m);
    } else {
      ModIs(q, r + 1, m);
    }
  }

  lemma {:induction false} ModIs(q: nat, r: nat, m: nat)
    requires r < m
    ensures (q * m + r) % m == r
  {
    var n := q * m + r;
    var d, s := n / m, n % m;
    assert (q - d) * m == s - r;
    if q != d {
      Multiple(q - d, m);
    }
  }

  lemma {:induction false} Multiple(k: int, m: int)
    requires k != 0 && m > 0
    ensures k * m >= m || k * m <= -m
  {
    assert k > 0 ==> (k - 1) * m >= 0;
    assert k < 0 ==> (-k - 1) * m >= 0;
  }

  /** The byte under the pointer, and where the pointer goes. */
  lemma {:induction false} NextByte(key: seq<bv8>, n: nat, p: nat)
    requires IsKey(key) && p == n % (|key| + 1)
    ensures KeyByte(key, n) == if p < |key| then key[p] else 0
    ensures (n + 1) % (|key| + 1) == if KeyByte(key, n) == 0 then 0 else p + 1
  {
    ModNext(n, |key| + 1);
  }

  lemma {:induction false} SignNext(sign: bv32, before: bv32, b: bv8)
    requires sign == 0 || sign == 0x80
    ensures sign | (Push(before, SignExtended(b)) & 0x80) == if sign == 0x80 || b & 0x80 != 0 then 0x80 else 0
  {
  }

  lemma {:induction false} ExtendsNext(bs: seq<bv8>, j: nat)
    requires j < |bs|
    ensures Extends(bs, j + 1) <==> Extends(bs, j) || (j > 0 && bs[j] & 0x80 != 0)
  {
  }

  /** Shifts a byte into both words. */
  method PushByte(ghost bs: seq<bv8>, ghost j: nat, good: bv32, bad: bv32, b: bv8) returns (good': bv32, bad': bv32)
    requires j < |bs| && bs[j] == b && good == Shifted(bs, j, false) && bad == Shifted(bs, j, true)
    ensures good' == Shifted(bs, j + 1, false) && bad' == Shifted(bs, j + 1, true) && bad' == Push(bad, SignExtended(b))
  {
    ShiftedNext(bs, j, b, false);
    ShiftedNext(bs, j, b, true);
    good', bad' := Push(good, b as bv32), Push(bad, SignExtended(b));
  }

  /** The byte under the pointer, and the pointer behind it. */
  method NextChar(key: seq<bv8>, ghost i: nat, ghost j: nat, ptr: nat) returns (ptr': nat, b: bv8)
    requires IsKey(key) && j < 4 && ptr == (4 * i + j) % (|key| + 1)
    ensures ptr' == (4 * i + j + 1) % (|key| + 1) && b == WordBytes(key, i)[j]
  {
    NextByte(key, 4 * i + j, ptr);
    b := if ptr < |key| then key[ptr] else 0;
    ptr' := if b == 0 then 0 else ptr + 1;
  }

  method NoteSign(sign: bv32, bad: bv32, ghost before: bv32, ghost b: bv8) returns (sign': bv32)
    requires (sign == 0 || sign == 0x80) && bad == Push(before, SignExtended(b))
    ensures sign' == if sign == 0x80 || b & 0x80 != 0 then 0x80 else 0
  {
    SignNext(sign, before, b);
    sign' := sign | (bad & 0x80);
  }

  /** Reads four bytes of the key from a position on. */
  method ReadWord(key: seq<bv8>, i: nat, ptr: nat, sign: bv32) returns (good: bv32, bad: bv32, ptr': nat, sign': bv32)
    requires IsKey(key) && ptr == 4 * i % (|key| + 1) && (sign == 0 || sign == 0x80)
    ensures good == Word(key, i, false) && bad == Word(key, i, true) && ptr' == 4 * (i + 1) % (|key| + 1)
    ensures sign' == if sign == 0x80 || WordExtends(key, i) then 0x80 else 0
  {
    good, bad, ptr', sign' := 0, 0, ptr, sign;
    var j := 0;
    while j < 4
      invariant 0 <= j <= 4 && ptr' == (4 * i + j) % (|key| + 1)
      invariant good == Shifted(WordBytes(key, i), j, false) && bad == Shifted(WordBytes(key, i), j, true)
      invariant sign' == if sign == 0x80 || Extends(WordBytes(key, i), j) then 0x80 else 0
    {
      ghost var before := bad;
      var b;
      ptr', b := NextChar(key, i, j, ptr');
      good, bad := PushByte(WordBytes(key, i), j, good, bad, b);
      ExtendsNext(WordBytes(key, i), j);
      if j > 0 {
        sign' := NoteSign(sign', bad, before, b);
      }
      j := j + 1;
    }
  }

  /** The mask made at the end. */
  function Mask(sign: bv32, diff: bv32, safety: bv32): bv32 {
    (sign << 9) & (!(((diff | (diff >> 16)) & 0xFFFF) + 0xFFFF) & safety)
  }

  /** It has bit 16 exactly when that is asked for, a sign extension has happened and there is no difference. */
  lemma {:induction false} MaskIs(sign: bv32, diff: bv32, flags: bv8)
    requires sign == 0 || sign == 0x80
    ensures Mask(sign, diff, ((flags as bv32) & 2) << 15) == Flip(flags, sign == 0x80 && diff == 0)
  {
  }

  function Flip(flags: bv8, collides: bool): bv32 {
    if flags & 2 != 0 && collides then 0x10000 else 0
  }

  /** What is gathered about sign extensions and differences in the first n words. */
  ghost predicate Gathered(key: seq<bv8>, n: nat, sign: bv32, diff: bv32) {
    (sign == if ExtendsTo(key, n) then 0x80 else 0) && (diff == 0 <==> SameTo(key, n))
  }

  lemma {:induction false} GatheredNext(key: seq<bv8>, n: nat, sign: bv32, diff: bv32, sign': bv32, good: bv32,
                                        bad: bv32)
    requires Gathered(key, n, sign, diff) && good == Word(key, n, false) && bad == Word(key, n, true)
    requires sign' == if sign == 0x80 || WordExtends(key, n) then 0x80 else 0
    ensures Gathered(key, n + 1, sign', diff | (good ^ bad))
  {
    DiffNext(diff, good, bad);
    SameNext(key, n);
    ToNext(key, n);
  }

  lemma {:induction false} DiffNext(diff: bv32, good: bv32, bad: bv32)
    ensures diff | (good ^ bad) == 0 <==> diff == 0 && good == bad
  {
  }

  lemma {:induction false} SameNext(key: seq<bv8>, n: nat)
    ensures SameTo(key, n + 1) <==> SameTo(key, n) && Same(key, n)
  {
  }

  lemma {:induction false} ToNext(key: seq<bv8>, n: nat)
    ensures ExtendsTo(key, n + 1) <==> ExtendsTo(key, n) || WordExtends(key, n)
  {
  }

  function Xor(a: bv32, b: bv32): bv32 { a ^ b }

  function Words(key: seq<bv8>, bug: bool): (ws: seq<bv32>)
    ensures |ws| == WORDS
  {
    seq(WORDS, i requires 0 <= i < WORDS => Word(key, i, bug))
  }

  function Xored(P: seq<bv32>, ws: seq<bv32>): (r: seq<bv32>)
    requires |P| == |ws|
    ensures |r| == |P|
  {
    seq(|P|, i requires 0 <= i < |P| => Xor(P[i], ws[i]))
  }

  /** The word at i, and what is gathered with it. */
  method NextWord(key: seq<bv8>, i: nat, ptr: nat, sign: bv32, diff: bv32, bug: bool)
    returns (w: bv32, ptr': nat, sign': bv32, diff': bv32)
    requires IsKey(key) && ptr == 4 * i % (|key| + 1) && Gathered(key, i, sign, diff)
    ensures w == Word(key, i, bug) && ptr' == 4 * (i + 1) % (|key| + 1) && Gathered(key, i + 1, sign', diff')
  {
    var good, bad;
    good, bad, ptr', sign' := ReadWord(key, i, ptr, sign);
    GatheredNext(key, i, sign, diff, sign', good, bad);
    diff' := diff | (good ^ bad);
    w := if bug then bad else good;
  }

  /** The loop of `BF_set_key`. */
  method ExpandKey(key: seq<bv8>, P: seq<bv32>, expanded: array<bv32>, initial: array<bv32>, bug: bool)
    returns (sign: bv32, diff: bv32)
    requires IsKey(key) && |P| == expanded.Length == initial.Length == WORDS && expanded != initial
    modifies expanded, initial
    ensures expanded[..] == Words(key, bug)
    ensures initial[..] == Xored(P, Words(key, bug))
    ensures Gathered(key, WORDS, sign, diff)
  {
    sign, diff := 0, 0;
    var i, ptr := 0, 0;
    ghost var ws := Words(key, bug);
    while i < WORDS
      invariant 0 <= i <= WORDS && ptr == 4 * i % (|key| + 1) && Gathered(key, i, sign, diff)
      invariant forall k :: 0 <= k < i ==> expanded[k] == ws[k] && initial[k] == Xor(P[k], ws[k])
    {
      var w;
      w, ptr, sign, diff := NextWord(key, i, ptr, sign, diff, bug);
      expanded[i] := w;
      initial[i] := Xor(P[i], w);
      i := i + 1;
    }
  }

  /**
    `BF_set_key`. Flag 1 asks for the old sign extension, flag 2 for the safety measure; the constants that
    start the state are P.
   */
  method SetKey(key: seq<bv8>, P: seq<bv32>, expanded: array<bv32>, initial: array<bv32>, flags: bv8)
    requires IsKey(key) && |P| == expanded.Length == initial.Length == WORDS && expanded != initial
    modifies expanded, initial
    ensures expanded[..] == Words(key, flags & 1 == 1)
    ensures initial[..] == FirstFlipped(Xored(P, Words(key, flags & 1 == 1)), Flip(flags, Collides(key)))
  {
    var sign, diff := ExpandKey(key, P, expanded, initial, flags & 1 == 1);
    MaskIs(sign, diff, flags);
    initial[0] := Xor(initial[0], Mask(sign, diff, ((flags as bv32) & 2) << 15));
  }

  function FirstFlipped(ws: seq<bv32>, mask: bv32): seq<bv32>
    requires ws != []
  {
    ws[0 := Xor(ws[0], mask)]
  }

  /**
    Keys prepared for `$2a$` (flags 2) and for `$2y$` (flags 4): the expanded keys are the same, and the
    initial keys too unless the key collides, when bit 16 of the first word differs.
   */
  lemma {:induction false} Safety(key: seq<bv8>, P: seq<bv32>)
    requires |P| == WORDS
    ensures var ws := Xored(P, Words(key, false));
      FirstFlipped(ws, Flip(4, Collides(key))) == ws &&
      FirstFlipped(ws, Flip(2, Collides(key))) == if Collides(key) then FirstFlipped(ws, 0x10000) else ws
    ensures Collides(key) ==>
      0xFF in key && FirstFlipped(Xored(P, Words(key, false)), 0x10000) != Xored(P, Words(key, false))
  {
    var ws := Xored(P, Words(key, false));
    XorZero(ws[0]);
    XorBit(ws[0]);
    if Collides(key) {
      CollidesHasOnes(key);
      assert FirstFlipped(ws, 0x10000)[0] != ws[0];
    }
  }

  /** What `BF_set_key` makes of a key: the expanded and the initial key. */
  ghost function Prepared(key: seq<bv8>, P: seq<bv32>, flags: bv8): (seq<bv32>, seq<bv32>)
    requires |P| == WORDS
  {
    (Words(key, flags & 1 == 1), FirstFlipped(Xored(P, Words(key, flags & 1 == 1)), Flip(flags, Collides(key))))
  }

  lemma {:induction false} PreparedPlain(key: seq<bv8>, P: seq<bv32>, flags: bv8)
    requires |P| == WORDS && flags & 2 == 0
    ensures Prepared(key, P, flags).1 == Xored(P, Words(key, flags & 1 == 1))
  {
    XorZero(Xored(P, Words(key, flags & 1 == 1))[0]);
  }

  lemma {:induction false} SameWords(key: seq<bv8>)
    requires SameTo(key, WORDS)
    ensures Words(key, true) == Words(key, false)
  {
    forall i | 0 <= i < WORDS ensures Words(key, true)[i] == Words(key, false)[i] {
      assert Same(key, i);
    }
  }

  /** Without the safety measure a colliding key is prepared like itself by the old algorithm. */
  lemma {:induction false} OldCollision(key: seq<bv8>, P: seq<bv32>)
    requires |P| == WORDS && Collides(key)
    ensures Prepared(key, P, 4) == Prepared(key, P, 1)
  {
    SameWords(key);
    PreparedPlain(key, P, 4);
    PreparedPlain(key, P, 1);
  }

  lemma {:induction false} PreparedSafe(key: seq<bv8>, P: seq<bv32>)
    requires |P| == WORDS && Collides(key)
    ensures Prepared(key, P, 2).0 == Words(key, false) && Prepared(key, P, 2).1 != Xored(P, Words(key, false))
  {
    Safety(key, P);
  }

  /** With it, no key is prepared like a colliding key by either algorithm. */
  lemma {:induction false} NoCollision(key: seq<bv8>, P: seq<bv32>, other: seq<bv8>, flags: bv8)
    requires |P| == WORDS && Collides(key) && flags & 2 == 0
    ensures Prepared(other, P, flags) != Prepared(key, P, 2)
  {
    PreparedPlain(other, P, flags);
    PreparedSafe(key, P);
    assert Prepared(other, P, flags).0 == Words(other, flags & 1 == 1);
  }

  lemma {:induction false} XorZero(a: bv32)
    ensures Xor(a, 0) == a
  {
  }

  lemma {:induction false} XorBit(a: bv32)
    ensures Xor(a, 0x10000) != a
  {
  }
}
