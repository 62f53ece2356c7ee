/**
  Domain names: as strings with dots, as the labels of section 3.1 of RFC 1035, and as read from a
  packet with the compression of section 4.1.4 of RFC 1035.
 */
module DnsNames {
  import opened Bytes
  import opened Distinctness

  const DOT: byte := 46

  type Label = seq<byte>

  // ----- Names and labels

  function Dotted(ls: seq<Label>): seq<byte> {
    if |ls| == 0 then [] else if |ls| == 1 then ls[0] else ls[0] + [DOT] + Dotted(ls[1..])
  }

  /** Every label followed by a dot. */
  function Trail(ls: seq<Label>): seq<byte> {
    if ls == [] then [] else ls[0] + [DOT] + Trail(ls[1..])
  }

  lemma {:induction false} TrailDotted(ls: seq<Label>)
    requires ls != []
    ensures Trail(ls) == Dotted(ls) + [DOT]
  {
    if |ls| > 1 {
      TrailDotted(ls[1..]);
      Assoc(ls[0] + [DOT], Dotted(ls[1..]), [DOT]);
    }
  }

  lemma {:induction false} TrailConcat(a: seq<Label>, b: seq<Label>)
    ensures Trail(a + b) == Trail(a) + Trail(b)
  {
    if a == [] {
      assert a + b == b;
    } else {
      assert (a + b)[1..] == a[1..] + b;
      TrailConcat(a[1..], b);
      Assoc(a[0] + [DOT], Trail(a[1..]), Trail(b));
    }
  }

  /** The position of the first dot, or the length of the name. */
  function FirstDot(name: seq<byte>): (d: nat)
    ensures d <= |name|
  {
    if name == [] || name[0] == DOT then 0 else 1 + FirstDot(name[1..])
  }

  lemma {:induction false} FirstDotIs(name: seq<byte>)
    ensures FirstDot(name) < |name| ==> name[FirstDot(name)] == DOT
    ensures forall i :: 0 <= i < FirstDot(name) ==> name[i] != DOT
  {
    if name != [] && name[0] != DOT {
      FirstDotIs(name[1..]);
      forall i | 0 <= i < FirstDot(name) ensures name[i] != DOT {
        assert i > 0 ==> name[i] == name[1..][i - 1];
      }
    }
  }

  /** A name cut at its dots. */
  function Labels(name: seq<byte>): (ls: seq<Label>)
    ensures ls != []
    decreases |name|
  {
    var d := FirstDot(name);
    if d == |name| then [name] else [name[..d]] + Labels(name[d + 1..])
  }

  lemma {:induction false} DottedLabels(name: seq<byte>)
    ensures Dotted(Labels(name)) == name
    decreases |name|
  {
    var d := FirstDot(name);
    if d < |name| {
      FirstDotIs(name);
      DottedLabels(name[d + 1..]);
      assert name == name[..d] + [DOT] + name[d + 1..];
      assert Labels(name)[1..] == Labels(name[d + 1..]);
    }
  }

  predicate GoodLabel(l: Label) {
    1 <= |l| <= 63
  }

  predicate GoodLabels(ls: seq<Label>) {
    ls == [] || (GoodLabel(ls[0]) && GoodLabels(ls[1..]))
  }

  /** A name that can be written: labels of 1 to 63 bytes. */
  predicate GoodName(name: seq<byte>) {
    GoodLabels(Labels(name))
  }

  // ----- The wire form

  predicate ShortLabels(ls: seq<Label>) {
    ls == [] || (|ls[0]| < 256 && ShortLabels(ls[1..]))
  }

  /** A label after its length. */
  function Part(l: Label): (w: seq<byte>)
    requires |l| < 256
    ensures |w| == |l| + 1
  {
    [|l|] + l
  }

  function Wire(ls: seq<Label>): seq<byte>
    requires ShortLabels(ls)
  {
    if ls == [] then [0] else Part(ls[0]) + Wire(ls[1..])
  }

  lemma {:induction false} WireLength(ls: seq<Label>)
    requires ShortLabels(ls)
    ensures |Wire(ls)| == |Trail(ls)| + 1
  {
    if ls != [] {
      WireLength(ls[1..]);
    }
  }

  // ----- Reading a name from a packet

  /** The offset in a pointer, section 4.1.4 of RFC 1035. */
  function RfcTarget(b0: int, b1: int): int { b0 % 64 * 256 + b1 }

  /** The offset as the decoders compute it on signed chars: a low byte from 128 on sets the bits above it. */
  function CodeTarget(b0: int, b1: int): int { if b1 < 128 then RfcTarget(b0, b1) else 0x3F00 + b1 }

  /** They agree exactly when the low byte is below 128, or the bits above it are set anyway. */
  lemma {:induction false} TargetsAgree(b0: byte, b1: byte)
    ensures CodeTarget(b0, b1) == RfcTarget(b0, b1) <==> b1 < 128 || b0 % 64 == 63
  {
  }

  function Target(code: bool, b0: int, b1: int): int {
    if code then CodeTarget(b0, b1) else RfcTarget(b0, b1)
  }

  function Prepend(ls: seq<Label>, r: Option<seq<Label>>): Option<seq<Label>> {
    if r.None? then None else Some(ls + r.value)
  }

  /**
    The labels of the name at an offset, if they can be read within `fuel` labels and pointers. `code`
    chooses between the code's idea of a pointer and that of the RFC.
   */
  function Expand(code: bool, p: seq<byte>, off: int, fuel: nat): Option<seq<Label>>
    decreases fuel
  {
    if fuel == 0 || off < 0 || off >= |p| then None
    else if p[off] >= 192 then
      if off + 1 >= |p| then None else Expand(code, p, Target(code, p[off], p[off + 1]), fuel - 1)
    else if p[off] > 63 then None
    else if p[off] == 0 then Some([])
    else if off + 1 + p[off] as int > |p| then None
    else Prepend([p[off + 1..off + 1 + p[off] as int]], Expand(code, p, off + 1 + p[off] as int, fuel - 1))
  }

  /** The name at an offset has the labels ls. */
  ghost predicate Names(code: bool, p: seq<byte>, off: int, ls: seq<Label>) {
    exists fuel :: Expand(code, p, off, fuel) == Some(ls)
  }

  /** More fuel does not change what was read. */
  lemma {:induction false} ExpandStays(code: bool, p: seq<byte>, off: int, fuel: nat, more: nat)
    requires Expand(code, p, off, fuel).Some? && fuel <= more
    ensures Expand(code, p, off, more) == Expand(code, p, off, fuel)
    decreases fuel
  {
    if p[off] >= 192 {
      ExpandStays(code, p, Target(code, p[off], p[off + 1]), fuel - 1, more - 1);
    } else if p[off] != 0 {
      ExpandStays(code, p, off + 1 + p[off] as int, fuel - 1, more - 1);
    }
  }

  lemma {:induction false} NamesUnique(code: bool, p: seq<byte>, off: int, ls: seq<Label>, ms: seq<Label>)
    requires Names(code, p, off, ls) && Names(code, p, off, ms)
    ensures ls == ms
  {
    var f: nat :| Expand(code, p, off, f) == Some(ls);
    var g: nat :| Expand(code, p, off, g) == Some(ms);
    if f <= g {
      ExpandStays(code, p, off, f, g);
    } else {
      ExpandStays(code, p, off, g, f);
    }
  }

  /** A label in the packet: its length, its bytes, and the offset after it. */
  lemma {:induction false} PartAt(a: seq<byte>, l: Label, b: seq<byte>)
    requires |l| < 256
    ensures var p := a + (Part(l) + b); p[|a|] as int == |l| && p[|a| + 1..|a| + 1 + |l|] == l
  {
    var p := a + (Part(l) + b);
    assert p == (a + [|l|]) + (l + b);
  }

  lemma {:induction false} ExpandLabel(code: bool, p: seq<byte>, off: nat, l: Label, fuel: nat)
    requires GoodLabel(l) && off + 1 + |l| <= |p| && p[off] as int == |l| && p[off + 1..off + 1 + |l|] == l && fuel > 0
    ensures Expand(code, p, off, fuel) == Prepend([l], Expand(code, p, off + 1 + |l|, fuel - 1))
  {
  }

  lemma {:induction false} ExpandEnd(code: bool, p: seq<byte>, off: nat, fuel: nat)
    requires off < |p| && p[off] == 0 && fuel > 0
    ensures Expand(code, p, off, fuel) == Some([])
  {
  }

  lemma {:induction false} WireCons(ls: seq<Label>, l: Label, rest: seq<Label>)
    requires ShortLabels(ls) && ls == [l] + rest && |l| < 256 && ShortLabels(rest)
    ensures Wire(ls) == Part(l) + Wire(rest)
  {
    assert ls[1..] == rest;
  }

  lemma {:induction false} WirePart(a: seq<byte>, l: Label, w: seq<byte>, b: seq<byte>)
    requires |l| < 256
    ensures a + ((Part(l) + w) + b) == (a + Part(l)) + (w + b)
    ensures var p := a + ((Part(l) + w) + b); p[|a|] as int == |l| && p[|a| + 1..|a| + 1 + |l|] == l
  {
    PartAt(a, l, w + b);
    Assoc(Part(l), w, b);
    Assoc(a, Part(l), w + b);
  }

  /** A label in front of labels that are read is read with them. */
  lemma {:induction false} StepExpands(code: bool, a: seq<byte>, l: Label, rest: seq<Label>, t: seq<byte>,
                                       p: seq<byte>, fuel: nat)
    requires GoodLabel(l)
    requires fuel > 0
    requires p == a + (Part(l) + t)
    requires Expand(code, p, |a| + 1 + |l|, fuel - 1) == Some(rest)
    ensures Expand(code, p, |a|, fuel) == Some([l] + rest)
  {
    PartAt(a, l, t);
    ExpandLabel(code, p, |a|, l, fuel);
  }

  /** A full wire form is read as its labels, by the RFC and by the code. */
  lemma {:induction false} WireExpands(code: bool, a: seq<byte>, ls: seq<Label>, b: seq<byte>, p: seq<byte>, fuel: nat)
    requires GoodLabels(ls) && ShortLabels(ls) && |ls| < fuel && p == a + (Wire(ls) + b)
    ensures Expand(code, p, |a|, fuel) == Some(ls)
    decreases |ls|
  {
    if ls == [] {
      assert p[|a|] == 0;
      ExpandEnd(code, p, |a|, fuel);
    } else {
      var l, rest := ls[0], ls[1..];
      var w := Wire(rest);
      assert GoodLabel(l);
      Assoc(Part(l), w, b);
      Assoc(a, Part(l), w + b);
      WireExpands(code, a + Part(l), rest, b, p, fuel - 1);
      StepExpands(code, a, l, rest, w + b, p, fuel);
      assert ls == [l] + rest;
    }
  }

  // ----- The two readers

  /** Where reading goes on after one label or pointer. */
  function Move(code: bool, p: seq<byte>, off: int): Option<int> {
    if off < 0 || off >= |p| then None
    else if p[off] >= 192 then if off + 1 >= |p| then None else Some(Target(code, p[off], p[off + 1]))
    else if p[off] > 63 || p[off] == 0 || off + 1 + p[off] as int > |p| then None
    else Some(off + 1 + p[off] as int)
  }

  /** The offset that is reached after n labels and pointers. */
  function Place(code: bool, p: seq<byte>, off: int, n: nat): Option<int> {
    if n == 0 then Some(off)
    else
      var w := Place(code, p, off, n - 1);
      if w.None? then None else Move(code, p, w.value)
  }

  /** If there is a pointer here, both readers take it to mean the same offset. */
  predicate Agrees(p: seq<byte>, off: int) {
    IsPointer(p, off) ==> p[off + 1] < 128 || p[off] % 64 == 63
  }

  predicate AgreesAfter(p: seq<byte>, off: int, n: nat) {
    Place(true, p, off, n).Some? ==> Agrees(p, Place(true, p, off, n).value)
  }

  /** The code at offset a and the RFC at offset b read the same name, or none. */
  ghost predicate SameNames(p: seq<byte>, a: int, b: int) {
    forall ls :: Names(true, p, a, ls) <==> Names(false, p, b, ls)
  }

  lemma {:induction false} PlaceLater(code: bool, p: seq<byte>, off: int, n: nat)
    requires Move(code, p, off).Some?
    ensures Place(code, p, off, n + 1) == Place(code, p, Move(code, p, off).value, n)
  {
    if n > 0 {
      PlaceLater(code, p, off, n - 1);
    } else {
      assert Place(code, p, off, 0) == Some(off);
    }
  }

  lemma {:induction false} SameExpand(p: seq<byte>, off: int, fuel: nat)
    requires forall n: nat :: AgreesAfter(p, off, n)
    ensures Expand(true, p, off, fuel) == Expand(false, p, off, fuel)
    decreases fuel
  {
    assert AgreesAfter(p, off, 0);
    var next := Move(true, p, off);
    if fuel > 0 && next.Some? {
      forall n: nat ensures AgreesAfter(p, next.value, n) {
        PlaceLater(true, p, off, n);
        assert AgreesAfter(p, off, n + 1);
      }
      SameExpand(p, next.value, fuel - 1);
    }
  }

  /** If both mean the same by every pointer that is met, the code reads what the RFC says. */
  lemma {:induction false} ReadersAgree(p: seq<byte>, off: int)
    requires forall n: nat :: AgreesAfter(p, off, n)
    ensures SameNames(p, off, off)
  {
    forall fuel ensures Expand(true, p, off, fuel) == Expand(false, p, off, fuel) {
      SameExpand(p, off, fuel);
    }
  }

  /** After some labels and pointers, `done` has been read and the name goes on at off. */
  ghost predicate Leads(code: bool, p: seq<byte>, start: int, steps: nat, done: seq<Label>, off: int) {
    forall f: nat :: Expand(code, p, start, steps + f) == Prepend(done, Expand(code, p, off, f))
  }

  lemma {:induction false} LeadsStart(code: bool, p: seq<byte>, start: int)
    ensures Leads(code, p, start, 0, [], start)
  {
    forall f: nat ensures Expand(code, p, start, 0 + f) == Prepend([], Expand(code, p, start, f)) {
      var e := Expand(code, p, start, f);
      assert e.Some? ==> [] + e.value == e.value;
    }
  }

  lemma {:induction false} LeadsPointer(code: bool, p: seq<byte>, start: int, steps: nat, done: seq<Label>, off: int)
    requires Leads(code, p, start, steps, done, off) && IsPointer(p, off)
    ensures Leads(code, p, start, steps + 1, done, Target(code, p[off], p[off + 1]))
  {
    var next := Target(code, p[off], p[off + 1]);
    forall f: nat ensures Expand(code, p, start, steps + 1 + f) == Prepend(done, Expand(code, p, next, f)) {
      assert Expand(code, p, start, steps + (f + 1)) == Prepend(done, Expand(code, p, off, f + 1));
    }
  }

  lemma {:induction false} LeadsLabel(code: bool, p: seq<byte>, start: int, steps: nat, done: seq<Label>, off: nat,
                                      l: Label)
    requires Leads(code, p, start, steps, done, off)
    requires off + |l| < |p| && p[off] as int == |l| && p[off + 1..off + 1 + |l|] == l && 1 <= |l| <= 63
    ensures Leads(code, p, start, steps + 1, done + [l], off + |l| + 1)
  {
    var next := off + |l| + 1;
    forall f: nat ensures Expand(code, p, start, steps + 1 + f) == Prepend(done + [l], Expand(code, p, next, f)) {
      assert Expand(code, p, start, steps + (f + 1)) == Prepend(done, Expand(code, p, off, f + 1));
      PrependTwice(done, l, Expand(code, p, next, f));
    }
  }

  lemma {:induction false} PrependTwice(done: seq<Label>, l: Label, r: Option<seq<Label>>)
    ensures Prepend(done, Prepend([l], r)) == Prepend(done + [l], r)
  {
    if r.Some? {
      assert done + ([l] + r.value) == done + [l] + r.value;
    }
  }

  /** A name that leads to an offset is what was read and the name there. */
  lemma {:induction false} NamesFrom(code: bool, p: seq<byte>, start: int, steps: nat, done: seq<Label>, off: int,
                                     ls: seq<Label>)
    requires Leads(code, p, start, steps, done, off)
    ensures Names(code, p, start, ls) <==> |done| <= |ls| && ls[..|done|] == done && Names(code, p, off, ls[|done|..])
  {
    if fuel: nat :| Expand(code, p, start, fuel) == Some(ls) {
      ExpandStays(code, p, start, fuel, steps + fuel);
      var e := Expand(code, p, off, fuel);
      assert Some(ls) == Prepend(done, e);
      assert ls[|done|..] == e.value && ls[..|done|] == done;
    }
    if |done| <= |ls| && ls[..|done|] == done && Names(code, p, off, ls[|done|..]) {
      var f: nat :| Expand(code, p, off, f) == Some(ls[|done|..]);
      assert Expand(code, p, start, steps + f) == Some(done + ls[|done|..]);
      assert done + ls[|done|..] == ls;
    }
  }

  /** Up to the first pointer that they disagree on, both have read the same labels and stand at the same offset. */
  lemma {:induction false} SameSoFar(p: seq<byte>, off: int, n: nat) returns (done: seq<Label>)
    requires Place(true, p, off, n).Some? && forall m: nat :: m < n ==> AgreesAfter(p, off, m)
    ensures Leads(true, p, off, n, done, Place(true, p, off, n).value)
    ensures Leads(false, p, off, n, done, Place(true, p, off, n).value)
  {
    if n == 0 {
      done := [];
      LeadsStart(true, p, off);
      LeadsStart(false, p, off);
    } else {
      var read := SameSoFar(p, off, n - 1);
      assert AgreesAfter(p, off, n - 1);
      done := BothMove(p, off, n - 1, read, Place(true, p, off, n - 1).value);
    }
  }

  lemma {:induction false} BothMove(p: seq<byte>, off: int, steps: nat, read: seq<Label>, o: int)
    returns (done: seq<Label>)
    requires Leads(true, p, off, steps, read, o) && Leads(false, p, off, steps, read, o)
    requires Agrees(p, o) && Move(true, p, o).Some?
    ensures Leads(true, p, off, steps + 1, done, Move(true, p, o).value)
    ensures Leads(false, p, off, steps + 1, done, Move(true, p, o).value)
  {
    if p[o] >= 192 {
      done := read;
      LeadsPointer(true, p, off, steps, read, o);
      LeadsPointer(false, p, off, steps, read, o);
    } else {
      var l := p[o + 1..o + 1 + p[o] as int];
      done := read + [l];
      LeadsLabel(true, p, off, steps, read, o, l);
      LeadsLabel(false, p, off, steps, read, o, l);
    }
  }

  /** The first pointer on which the readers disagree is met after n labels and pointers. */
  ghost predicate FirstDiffers(p: seq<byte>, off: int, n: nat) {
    !AgreesAfter(p, off, n) && forall m: nat :: m < n ==> AgreesAfter(p, off, m)
  }

  lemma {:induction false} SameAfter(p: seq<byte>, off: int, n: nat, m: nat, done: seq<Label>, a: int, b: int)
    requires Leads(true, p, off, n, done, a) && Leads(false, p, off, m, done, b)
    ensures SameNames(p, off, off) <==> SameNames(p, a, b)
  {
    forall ls ensures
      (Names(true, p, off, ls) <==> |done| <= |ls| && ls[..|done|] == done && Names(true, p, a, ls[|done|..])) &&
      (Names(false, p, off, ls) <==> |done| <= |ls| && ls[..|done|] == done && Names(false, p, b, ls[|done|..]))
    {
      NamesFrom(true, p, off, n, done, a, ls);
      NamesFrom(false, p, off, m, done, b, ls);
    }
    forall ms | SameNames(p, off, off) ensures Names(true, p, a, ms) <==> Names(false, p, b, ms) {
      var ls := done + ms;
      assert ls[..|done|] == done && ls[|done|..] == ms;
    }
  }

  /** At that pointer they read the same name exactly when the names at the two offsets are the same. */
  lemma {:induction false} ReadersAgreeIff(p: seq<byte>, off: int, n: nat)
    requires FirstDiffers(p, off, n)
    ensures var o := Place(true, p, off, n).value;
      IsPointer(p, o) &&
      (SameNames(p, off, off) <==> SameNames(p, CodeTarget(p[o], p[o + 1]), RfcTarget(p[o], p[o + 1])))
  {
    var done := SameSoFar(p, off, n);
    var o := Place(true, p, off, n).value;
    LeadsPointer(true, p, off, n, done, o);
    LeadsPointer(false, p, off, n, done, o);
    SameAfter(p, off, n + 1, n + 1, done, CodeTarget(p[o], p[o + 1]), RfcTarget(p[o], p[o + 1]));
  }

  /** A pointer to offset 128, and the name `a` there. */
  function FarPacket(): seq<byte> {
    [192, 128] + seq(126, _ => 0) + [1, 97, 0]
  }

  /** The RFC reads that name; the code reads none. */
  lemma {:induction false} ReadersDiffer()
    ensures Names(false, FarPacket(), 0, [[97]]) && !SameNames(FarPacket(), 0, 0)
  {
    var p := FarPacket();
    assert p[0] == 192 && p[1] == 128 && p[128] == 1 && p[129] == 97 && p[130] == 0 && |p| == 131;
    ExpandEnd(false, p, 130, 1);
    ExpandLabel(false, p, 128, [97], 2);
    assert Expand(false, p, 0, 3) == Expand(false, p, 128, 2) == Some([[97]] + []);
    assert [[97 as byte]] + [] == [[97]];
    assert Names(false, p, 0, [[97]]);
    forall fuel: nat ensures Expand(true, p, 0, fuel).None? {
      assert fuel > 0 ==> Expand(true, p, 0, fuel) == Expand(true, p, 0x3F80, fuel - 1);
    }
    assert !Names(true, p, 0, [[97]]);
  }

  // ----- Chains of pointers

  predicate IsPointer(p: seq<byte>, off: int) {
    0 <= off && off + 1 < |p| && p[off] >= 192
  }

  function Next(p: seq<byte>, off: int): int
    requires IsPointer(p, off)
  {
    CodeTarget(p[off], p[off + 1])
  }

  /** Every element but the last is a pointer to the one after it. */
  ghost predicate IsChain(p: seq<byte>, c: seq<nat>) {
    forall j :: 0 <= j < |c| - 1 ==> IsPointer(p, c[j]) && Next(p, c[j]) == c[j + 1]
  }

  ghost predicate Repeats(c: seq<nat>, i: nat, j: nat) {
    i < j < |c| && c[i] == c[j]
  }

  /** A chain of pointers from an offset comes back to where it has been. */
  ghost predicate IsLoop(p: seq<byte>, off: nat, c: seq<nat>) {
    c != [] && c[0] == off && IsChain(p, c) && exists i, j :: Repeats(c, i, j)
  }

  ghost predicate Loops(p: seq<byte>, off: nat) {
    exists c :: IsLoop(p, off, c)
  }

  /** How many pointers are followed from an offset, up to a limit. */
  function Hops(p: seq<byte>, off: int, limit: nat): nat
    decreases limit
  {
    if limit == 0 || !IsPointer(p, off) then 0 else 1 + Hops(p, Next(p, off), limit - 1)
  }

  function ChainFrom(p: seq<byte>, off: nat, limit: nat): (c: seq<nat>)
    ensures |c| == Hops(p, off, limit) + 1 && c[0] == off
    ensures IsChain(p, c)
    decreases limit
  {
    if limit == 0 || !IsPointer(p, off) then [off]
    else
      var rest := ChainFrom(p, Next(p, off), limit - 1);
      assert forall j :: 0 <= j < |rest| ==> ([off] + rest)[j + 1] == rest[j];
      [off] + rest
  }

  lemma {:induction false} RepeatLoops(p: seq<byte>, off: nat, c: seq<nat>, i: nat, j: nat)
    requires c != [] && c[0] == off && IsChain(p, c) && i < j < |c|
    ensures c[i] != c[j] || Loops(p, off)
  {
    if c[i] == c[j] {
      assert Repeats(c, i, j);
      assert IsLoop(p, off, c);
    }
  }

  /** A chain that does not come back visits no byte of the packet twice. */
  lemma {:induction false} ChainShort(p: seq<byte>, off: nat, limit: nat)
    requires !Loops(p, off)
    ensures Hops(p, off, limit) <= |p|
  {
    var c := ChainFrom(p, off, limit);
    var head := c[..|c| - 1];
    forall i, j | 0 <= i < j < |head| ensures head[i] != head[j] {
      RepeatLoops(p, off, c, i, j);
    }
    forall j | 0 <= j < |head| ensures head[j] < |p| {
      assert IsPointer(p, c[j]);
    }
    Pigeonhole(head, |p|);
  }

  /** Unless they loop, each pointer followed leaves fewer to follow. */
  lemma {:induction false} HopsDecrease(p: seq<byte>, off: nat)
    requires !Loops(p, off) && IsPointer(p, off)
    ensures Hops(p, Next(p, off), |p| + 1) < Hops(p, off, |p| + 1)
  {
    ChainShort(p, off, |p| + 1);
    HopsStay(p, Next(p, off), |p|);
  }

  lemma {:induction false} HopsStay(p: seq<byte>, off: int, limit: nat)
    requires Hops(p, off, limit) < limit
    ensures Hops(p, off, limit + 1) == Hops(p, off, limit)
    decreases limit
  {
    if IsPointer(p, off) {
      HopsStay(p, Next(p, off), limit - 1);
    }
  }

  lemma {:induction false} LoopGoesOn(p: seq<byte>, c: seq<nat>, i: nat, j: nat, t: nat, k: nat)
    requires IsChain(p, c) && Repeats(c, i, j) && t < j
    ensures Hops(p, c[t], k) == k
    decreases k
  {
    if k > 0 {
      assert IsPointer(p, c[t]) && Next(p, c[t]) == c[t + 1];
      LoopGoesOn(p, c, i, j, if t + 1 == j then i else t + 1, k - 1);
    }
  }

  ghost predicate Endless(p: seq<byte>, off: nat) {
    forall k: nat :: Hops(p, off, k) == k
  }

  /** Pointers are followed for ever exactly when they come back to where they have been. */
  lemma {:induction false} EndlessIffLoops(p: seq<byte>, off: nat)
    ensures Endless(p, off) <==> Loops(p, off)
  {
    if Loops(p, off) {
      var c :| IsLoop(p, off, c);
      var i, j :| Repeats(c, i, j);
      forall k: nat ensures Hops(p, off, k) == k {
        LoopGoesOn(p, c, i, j, 0, k);
      }
    } else {
      ChainShort(p, off, |p| + 1);
      assert Hops(p, off, |p| + 1) != |p| + 1;
    }
  }

  /** The offset that is reached by following n pointers. */
  function Hop(p: seq<byte>, off: nat, n: nat): Option<nat> {
    if n == 0 then Some(off)
    else
      var o := Hop(p, off, n - 1);
      if o.Some? && IsPointer(p, o.value) then Some(Next(p, o.value)) else None
  }

  /** If there is a pointer here, it goes strictly backward. */
  predicate Backward(p: seq<byte>, off: int) {
    IsPointer(p, off) ==> Next(p, off) < off
  }

  predicate BackwardAfter(p: seq<byte>, off: nat, n: nat) {
    Hop(p, off, n).Some? ==> Backward(p, Hop(p, off, n).value)
  }

  lemma {:induction false} ChainHops(p: seq<byte>, c: seq<nat>, j: nat)
    requires IsChain(p, c) && j < |c|
    ensures Hop(p, c[0], j) == Some(c[j])
  {
    if j > 0 {
      ChainHops(p, c, j - 1);
      assert IsPointer(p, c[j - 1]);
    }
  }

  /** If every pointer that is followed goes strictly backward, they do not loop. */
  lemma {:induction false} BackwardEnds(p: seq<byte>, off: nat)
    requires forall n: nat :: BackwardAfter(p, off, n)
    ensures !Loops(p, off)
  {
    if Loops(p, off) {
      var c :| IsLoop(p, off, c);
      var i, j :| Repeats(c, i, j);
      Descends(p, c, i, j);
    }
  }

  lemma {:induction false} Descends(p: seq<byte>, c: seq<nat>, i: nat, j: nat)
    requires c != [] && forall n: nat :: BackwardAfter(p, c[0], n)
    requires IsChain(p, c) && i < j < |c|
    ensures c[j] < c[i]
    decreases j
  {
    ChainHops(p, c, j - 1);
    assert BackwardAfter(p, c[0], j - 1) && IsPointer(p, c[j - 1]);
    if i < j - 1 {
      Descends(p, c, i, j - 1);
    }
  }
}
