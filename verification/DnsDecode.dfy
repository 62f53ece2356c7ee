/** `DNSUtil::decodeName` (DNS/DNSUtil.cpp): when it returns, and what it reads. */
module DnsDecode {
  import opened Bytes
  import opened DnsNames
  import opened DnsEncode

  datatype Failure =
    | QnameTooLong
    | LabelTooLong
    | BufferTooSmall
    | OutOfBounds   // an access outside the packet or the buffer

  datatype Outcome = Decoded(bytesRead: nat) | Failed(why: Failure)

  // ----- The walk through the packet

  /** Where the decoder reads and where it writes. */
  datatype Cursor = Cursor(off: nat, dst: nat)

  /** What stands at an offset can be followed or copied. */
  predicate Goes(p: seq<byte>, off: nat, dst: nat, room: nat) {
    off < |p| &&
    if p[off] >= 192 then off + 1 < |p|
    else p[off] <= 63 && off + p[off] as int < |p| && dst + p[off] as int + 1 <= room
  }

  function Step(p: seq<byte>, c: Cursor, room: nat): Option<Cursor> {
    if !Goes(p, c.off, c.dst, room) || p[c.off] == 0 then None
    else if p[c.off] >= 192 then Some(Cursor(Next(p, c.off), c.dst))
    else Some(Cursor(c.off + p[c.off] as int + 1, c.dst + p[c.off] as int + 1))
  }

  function Walk(p: seq<byte>, c: Cursor, room: nat, n: nat): Option<Cursor> {
    if n == 0 then Some(c)
    else
      var w := Walk(p, c, room, n - 1);
      if w.None? then None else Step(p, w.value, room)
  }

  ghost predicate RunsOn(p: seq<byte>, c: Cursor, room: nat) {
    forall n: nat :: Walk(p, c, room, n).Some?
  }

  /** After n labels and pointers the decoder has come to pointers that loop. */
  ghost predicate Trapped(p: seq<byte>, c: Cursor, room: nat, n: nat) {
    var w := Walk(p, c, room, n);
    w.Some? && Loops(p, w.value.off)
  }

  lemma {:induction false} WalkShorter(p: seq<byte>, c: Cursor, room: nat, m: nat, n: nat)
    requires m <= n && Walk(p, c, room, n).Some?
    ensures Walk(p, c, room, m).Some?
    decreases n
  {
    if m < n {
      WalkShorter(p, c, room, m, n - 1);
    }
  }

  lemma {:induction false} TrappedOn(p: seq<byte>, c: Cursor, room: nat, n: nat, k: nat)
    requires Walk(p, c, room, n).Some? && Endless(p, Walk(p, c, room, n).value.off)
    ensures Walk(p, c, room, n + k).Some?
    decreases k
  {
    if k > 0 {
      var off := Walk(p, c, room, n).value.off;
      assert Hops(p, off, 1) == 1;
      forall j: nat ensures Hops(p, Next(p, off), j) == j {
        assert Hops(p, off, j + 1) == j + 1;
      }
      TrappedOn(p, c, room, n + 1, k - 1);
    }
  }

  /** What the walk has left: buffer to fill, and pointers to follow. */
  function Measure(p: seq<byte>, c: Cursor, room: nat): int {
    (room - c.dst) * (|p| + 2) + Hops(p, c.off, |p| + 1)
  }

  lemma {:induction false} Scaled(a: int, b: int, k: int, h: int)
    requires a < b && 0 <= h < k
    ensures a * k + h < b * k
  {
    assert a * k + k == (a + 1) * k <= b * k;
  }

  lemma {:induction false} MeasureDecreases(p: seq<byte>, c: Cursor, d: Cursor, room: nat)
    requires !Loops(p, c.off) && Step(p, c, room) == Some(d)
    ensures Measure(p, d, room) < Measure(p, c, room)
  {
    if d.dst == c.dst {
      HopsDecrease(p, c.off);
    } else {
      HopsBound(p, d.off, |p| + 1);
      Scaled(room - d.dst, room - c.dst, |p| + 2, Hops(p, d.off, |p| + 1));
    }
  }

  lemma {:induction false} HopsBound(p: seq<byte>, off: int, limit: nat)
    ensures Hops(p, off, limit) <= limit
    decreases limit
  {
    if limit > 0 && IsPointer(p, off) {
      HopsBound(p, Next(p, off), limit - 1);
    }
  }

  lemma {:induction false} WalkEnds(p: seq<byte>, c: Cursor, room: nat, n: nat)
    requires forall m :: !Trapped(p, c, room, m)
    requires Walk(p, c, room, n).Some?
    ensures Measure(p, Walk(p, c, room, n).value, room) + n <= Measure(p, c, room)
    decreases n
  {
    if n > 0 {
      WalkEnds(p, c, room, n - 1);
      assert !Trapped(p, c, room, n - 1);
      MeasureDecreases(p, Walk(p, c, room, n - 1).value, Walk(p, c, room, n).value, room);
    }
  }

  lemma {:induction false} WalkFits(p: seq<byte>, c: Cursor, room: nat, n: nat)
    requires c.dst <= room && Walk(p, c, room, n).Some?
    ensures Walk(p, c, room, n).value.dst <= room
    decreases n
  {
    if n > 0 {
      WalkFits(p, c, room, n - 1);
    }
  }

  lemma {:induction false} TrappedRunsOn(p: seq<byte>, c: Cursor, room: nat, n: nat)
    requires Trapped(p, c, room, n)
    ensures RunsOn(p, c, room)
  {
    EndlessIffLoops(p, Walk(p, c, room, n).value.off);
    forall m: nat ensures Walk(p, c, room, m).Some? {
      TrappedOn(p, c, room, n, m);
      WalkShorter(p, c, room, m, n + m);
    }
  }

  lemma {:induction false} FreeEnds(p: seq<byte>, c: Cursor, room: nat)
    requires c.dst <= room && forall m :: !Trapped(p, c, room, m)
    ensures !RunsOn(p, c, room)
  {
    var n := Measure(p, c, room) + 1;
    Nonnegative(p, c, room);
    if Walk(p, c, room, n).Some? {
      WalkEnds(p, c, room, n);
      WalkFits(p, c, room, n);
      Nonnegative(p, Walk(p, c, room, n).value, room);
    }
    assert Walk(p, c, room, n).None?;
  }

  lemma {:induction false} Nonnegative(p: seq<byte>, c: Cursor, room: nat)
    requires c.dst <= room
    ensures Measure(p, c, room) >= 0
  {
  }

  /** The decoder goes on for ever exactly when it comes to pointers that loop. */
  lemma {:induction false} RunsOnIffTrapped(p: seq<byte>, c: Cursor, room: nat)
    requires c.dst <= room
    ensures RunsOn(p, c, room) <==> exists n :: Trapped(p, c, room, n)
  {
    if n: nat :| Trapped(p, c, room, n) {
      TrappedRunsOn(p, c, room, n);
    } else {
      FreeEnds(p, c, room);
    }
  }

  /** The decoder follows the pointers that it comes to. */
  lemma {:induction false} WalkHops(p: seq<byte>, c: Cursor, room: nat, n: nat, k: nat)
    requires Walk(p, c, room, n).Some? && Hop(p, Walk(p, c, room, n).value.off, k).Some?
    ensures Walk(p, c, room, n + k).Some?
    ensures Hop(p, Walk(p, c, room, n).value.off, k) == Some(Walk(p, c, room, n + k).value.off)
    decreases k
  {
    if k > 0 {
      WalkHops(p, c, room, n, k - 1);
    }
  }

  predicate MeetsBackward(p: seq<byte>, c: Cursor, room: nat, n: nat) {
    Walk(p, c, room, n).Some? ==> Backward(p, Walk(p, c, room, n).value.off)
  }

  /** If every pointer that the decoder comes to goes strictly backward, it returns. */
  lemma {:induction false} BackwardReturns(p: seq<byte>, c: Cursor, room: nat)
    requires c.dst <= room && forall n: nat :: MeetsBackward(p, c, room, n)
    ensures !RunsOn(p, c, room)
  {
    forall n: nat ensures !Trapped(p, c, room, n) {
      if Walk(p, c, room, n).Some? {
        var off := Walk(p, c, room, n).value.off;
        forall k: nat ensures BackwardAfter(p, off, k) {
          if Hop(p, off, k).Some? {
            WalkHops(p, c, room, n, k);
            assert MeetsBackward(p, c, room, n + k);
          }
        }
        BackwardEnds(p, off);
      }
    }
    FreeEnds(p, c, room);
  }

  /** A pointer to itself is followed for ever. */
  lemma {:induction false} SelfPointerRunsOn(room: nat)
    ensures RunsOn([192, 0], Cursor(0, 0), room)
  {
    var p: seq<byte> := [192, 0];
    assert IsChain(p, [0, 0]) && Repeats([0, 0], 0, 1);
    assert IsLoop(p, 0, [0, 0]);
    assert Walk(p, Cursor(0, 0), room, 0) == Some(Cursor(0, 0));
    TrappedRunsOn(p, Cursor(0, 0), room, 0);
  }

  // ----- What has been read so far

  /** A name that can be read into a buffer of a given size. The root name cannot. */
  ghost predicate Readable(p: seq<byte>, start: nat, room: nat, ls: seq<Label>) {
    ls != [] && Names(true, p, start, ls) && |Dotted(ls)| + 2 <= room
  }

  lemma {:induction false} LeadsEnd(p: seq<byte>, start: nat, steps: nat, done: seq<Label>, off: nat)
    requires Leads(true, p, start, steps, done, off) && off < |p| && p[off] == 0
    ensures Names(true, p, start, done)
  {
    assert Expand(true, p, start, steps + 1) == Prepend(done, Expand(true, p, off, 1));
    assert done + [] == done;
  }

  /** What a readable name still has to come. */
  lemma {:induction false} Remaining(p: seq<byte>, start: nat, steps: nat, done: seq<Label>, off: nat, ls: seq<Label>)
    returns (more: seq<Label>, f: nat)
    requires Leads(true, p, start, steps, done, off) && Names(true, p, start, ls)
    ensures Expand(true, p, off, f) == Some(more) && ls == done + more
  {
    f :| Expand(true, p, start, f) == Some(ls);
    ExpandStays(true, p, start, f, steps + f);
    more := Expand(true, p, off, f).value;
  }

  /** When the decoder can go no further there is no name it should have read. */
  lemma {:induction false} Stuck(p: seq<byte>, start: nat, steps: nat, done: seq<Label>, off: nat, room: nat,
                                 ls: seq<Label>)
    requires Leads(true, p, start, steps, done, off) && !Goes(p, off, |Trail(done)|, room)
    ensures !Readable(p, start, room, ls)
  {
    if Readable(p, start, room, ls) {
      var more, f := Remaining(p, start, steps, done, off, ls);
      TrailConcat(done, more);
      TrailDotted(ls);
    }
  }

  // ----- The decoder

  /** The offset of the first NUL from an offset on, or the end of the packet. */
  function Nul(p: seq<byte>, off: nat): (n: nat)
    requires off <= |p|
    ensures off <= n <= |p| && (n < |p| ==> p[n] == 0)
    ensures forall i :: off <= i < n ==> p[i] != 0
    decreases |p| - off
  {
    if off == |p| || p[off] == 0 then off else Nul(p, off + 1)
  }

  method StrLen(p: seq<byte>, start: nat) returns (n: nat)
    requires start <= |p|
    ensures start + n == Nul(p, start)
  {
    n := 0;
    while start + n < |p| && p[start + n] != 0
      invariant start + n <= |p| && Nul(p, start) == Nul(p, start + n)
    {
      n := n + 1;
    }
  }

  /** Copies a label and writes a dot after it. */
  method CopyLabel(p: seq<byte>, off: nat, count: nat, output: array<byte>, dst: nat, bufLen: nat)
    returns (why: Option<Failure>)
    requires off < |p| && dst <= bufLen <= output.Length
    modifies output
    ensures why.None? <==> off + count < |p| && dst + count + 1 <= bufLen
    ensures why != Some(QnameTooLong)
    ensures why.None? ==> output[..dst + count + 1] == old(output[..dst]) + p[off + 1..off + 1 + count] + [DOT]
  {
    var i := 0;
    while i < count
      invariant 0 <= i <= count && off + i < |p| && dst + i <= bufLen
      invariant output[..dst + i] == old(output[..dst]) + p[off + 1..off + 1 + i]
    {
      if dst + i + 1 > bufLen {
        return Some(BufferTooSmall);
      }
      if off + 1 + i >= |p| {
        return Some(OutOfBounds);
      }
      output[dst + i] := p[off + 1 + i];
      i := i + 1;
    }
    if dst + count + 1 > bufLen {
      return Some(BufferTooSmall);
    }
    output[dst + count] := DOT;
    return None;
  }

  /** The decoder has read `done`, written it and stands before what follows. */
  ghost predicate Reading(p: seq<byte>, start: nat, bufLen: nat, steps: nat, done: seq<Label>, off: nat,
                          written: seq<byte>) {
    && Leads(true, p, start, steps, done, off)
    && Walk(p, Cursor(start, 0), bufLen, steps) == Some(Cursor(off, |Trail(done)|))
    && written == Trail(done)
  }

  lemma {:induction false} ReadLabel(p: seq<byte>, start: nat, bufLen: nat, steps: nat, done: seq<Label>, off: nat,
                                     written: seq<byte>, l: Label)
    requires Reading(p, start, bufLen, steps, done, off, written)
    requires Goes(p, off, |written|, bufLen)
    requires p[off] as int == |l| > 0
    requires p[off] < 192
    requires p[off + 1..off + 1 + |l|] == l
    ensures Reading(p, start, bufLen, steps + 1, done + [l], off + |l| + 1, written + l + [DOT])
  {
    LeadsLabel(true, p, start, steps, done, off, l);
    TrailConcat(done, [l]);
    assert Trail([l]) == l + [DOT];
    Assoc(written, l, [DOT]);
  }

  /** The buffer holds the name and a NUL. */
  ghost predicate Shows(written: seq<byte>, ls: seq<Label>) {
    |Dotted(ls)| < |written| && written[..|Dotted(ls)| + 1] == Dotted(ls) + [0]
  }

  lemma {:induction false} Closed(written: seq<byte>, ls: seq<Label>, n: nat)
    requires ls != [] && n == |Trail(ls)| < |written| && written[..n] == Trail(ls)
    ensures Shows(written[n - 1 := 0], ls)
  {
    TrailDotted(ls);
    assert written[..n][..n - 1] == Dotted(ls);
  }

  lemma {:induction false} OnlyRoot(p: seq<byte>, start: nat, bufLen: nat, ls: seq<Label>)
    requires Names(true, p, start, [])
    ensures !Readable(p, start, bufLen, ls)
  {
    if Names(true, p, start, ls) {
      NamesUnique(true, p, start, [], ls);
    }
  }

  lemma {:induction false} ReadingStarts(p: seq<byte>, start: nat, bufLen: nat)
    ensures Reading(p, start, bufLen, 0, [], start, [])
  {
    LeadsStart(true, p, start);
  }

  lemma {:induction false} ReadPointer(p: seq<byte>, start: nat, bufLen: nat, steps: nat, done: seq<Label>, off: nat,
                                       written: seq<byte>)
    requires Reading(p, start, bufLen, steps, done, off, written) && IsPointer(p, off)
    ensures Reading(p, start, bufLen, steps + 1, done, Next(p, off), written)
  {
    LeadsPointer(true, p, start, steps, done, off);
  }

  /** One round of the loop: a pointer is followed, or a label is copied. */
  method ReadPart(p: seq<byte>, start: nat, output: array<byte>, bufLen: nat, off: nat, dst: nat, ghost steps: nat,
                  ghost ls: seq<Label>)
    returns (why: Option<Failure>, count: nat, off': nat, dst': nat, ghost ls': seq<Label>)
    requires dst <= bufLen <= output.Length && Reading(p, start, bufLen, steps, ls, off, output[..dst])
    modifies output
    ensures why.Some? ==> why.value != QnameTooLong && !Goes(p, off, dst, bufLen)
    ensures why.None? ==> dst <= dst' <= bufLen
    ensures why.None? && count == 0 ==> Names(true, p, start, ls) && ls' == ls && output[..dst'] == Trail(ls) + [DOT]
    ensures why.None? && count > 0 ==> Reading(p, start, bufLen, steps + 1, ls', off', output[..dst'])
    ensures why.None? && count > 0 && dst' == dst ==> IsPointer(p, off) && off' == Next(p, off)
  {
    count, off', dst', ls' := 0, off, dst, ls;
    if off >= |p| {
      return Some(OutOfBounds), count, off', dst', ls';
    }
    count := p[off];
    if count >= 192 {
      if off + 1 >= |p| {
        return Some(OutOfBounds), count, off', dst', ls';
      }
      ReadPointer(p, start, bufLen, steps, ls, off, output[..dst]);
      off' := Next(p, off);
      why := None;
    } else if count > 63 {
      why := Some(LabelTooLong);
    } else {
      ghost var written := output[..dst];
      why := CopyLabel(p, off, count, output, dst, bufLen);
      if why.None? {
        if count > 0 {
          ghost var l := p[off + 1..off + 1 + count];
          ReadLabel(p, start, bufLen, steps, ls, off, written, l);
          ls' := ls + [l];
        } else {
          LeadsEnd(p, start, steps, ls, off);
          assert p[off + 1..off + 1 + count] == [];
        }
        dst' := dst + count + 1;
        off' := off + count + 1;
      }
    }
  }

  /** The part of `decodeName` after the test of the length. */
  method ReadName(p: seq<byte>, start: nat, output: array<byte>, bufLen: nat) returns (r: Outcome, ghost ls: seq<Label>)
    requires bufLen <= output.Length && forall n :: !Trapped(p, Cursor(start, 0), bufLen, n)
    modifies output
    ensures r.Decoded? ==> Readable(p, start, bufLen, ls) && Shows(output[..], ls) && r.bytesRead == |Dotted(ls)| + 2
    ensures r.Failed? ==> r.why != QnameTooLong && forall ms :: !Readable(p, start, bufLen, ms)
  {
    ls := [];
    var off: nat, dst: nat, count: nat := start, 0, 1;
    ghost var steps := 0;
    ReadingStarts(p, start, bufLen);
    while count > 0
      invariant dst <= bufLen
      invariant count > 0 ==> Reading(p, start, bufLen, steps, ls, off, output[..dst])
      invariant count == 0 ==> Names(true, p, start, ls) && output[..dst] == Trail(ls) + [DOT]
      decreases count > 0, bufLen - dst, Hops(p, off, |p| + 1)
    {
      ghost var off0, dst0, ls0 := off, dst, ls;
      assert !Trapped(p, Cursor(start, 0), bufLen, steps);
      var why;
      why, count, off, dst, ls := ReadPart(p, start, output, bufLen, off, dst, steps, ls);
      if why.Some? {
        forall ms ensures !Readable(p, start, bufLen, ms) {
          Stuck(p, start, steps, ls0, off0, bufLen, ms);
        }
        return Failed(why.value), ls;
      }
      if count > 0 && dst == dst0 {
        HopsDecrease(p, off0);
      }
      steps := steps + 1;
    }
    if dst < 2 {
      forall ms ensures !Readable(p, start, bufLen, ms) {
        OnlyRoot(p, start, bufLen, ms);
      }
      return Failed(OutOfBounds), ls;
    }
    TrailDotted(ls);
    Closed(output[..], ls, dst - 1);
    output[dst - 2] := 0;
    r := Decoded(dst);
  }

  /** A NUL ends the bytes at an offset within 255. */
  ghost predicate Terminated(p: seq<byte>, start: nat) {
    start < |p| && Nul(p, start) < |p| && Nul(p, start) - start <= 255
  }

  /**
    `decodeName`. It decodes exactly the terminated bytes that stand for a name other than the root that
    fits into the buffer; it then leaves the dotted name there and reports two bytes more than its length.
   */
  method DecodeName(p: seq<byte>, start: nat, output: array<byte>, bufLen: nat)
    returns (r: Outcome, ghost ls: seq<Label>)
    requires bufLen <= output.Length
    requires Terminated(p, start) ==> forall n :: !Trapped(p, Cursor(start, 0), bufLen, n)
    modifies output
    ensures r.Decoded? ==> Readable(p, start, bufLen, ls) && Shows(output[..], ls) && r.bytesRead == |Dotted(ls)| + 2
    ensures r.Decoded? <==> Terminated(p, start) && exists ms :: Readable(p, start, bufLen, ms)
    ensures r == Failed(QnameTooLong) <==> start < |p| && Nul(p, start) < |p| && Nul(p, start) - start > 255
  {
    ls := [];
    if start >= |p| {
      return Failed(OutOfBounds), ls;
    }
    var qnameLength := StrLen(p, start);
    if start + qnameLength == |p| {
      return Failed(OutOfBounds), ls;
    }
    if qnameLength > 255 {
      return Failed(QnameTooLong), ls;
    }
    r, ls := ReadName(p, start, output, bufLen);
  }

  // ----- Encoding and decoding

  /** Along a full wire form the walk stays at label boundaries. */
  lemma {:induction false} WalkAlong(p: seq<byte>, a: seq<byte>, ls: seq<Label>, b: seq<byte>, room: nat, n: nat)
    returns (a': seq<byte>, ls': seq<Label>)
    requires GoodLabels(ls) && ShortLabels(ls) && p == a + (Wire(ls) + b)
    requires Walk(p, Cursor(|a|, 0), room, n).Some?
    ensures Walk(p, Cursor(|a|, 0), room, n).value.off == |a'|
    ensures GoodLabels(ls') && ShortLabels(ls') && p == a' + (Wire(ls') + b)
    decreases n
  {
    if n == 0 {
      a', ls' := a, ls;
    } else {
      var a0, ls0 := WalkAlong(p, a, ls, b, room, n - 1);
      assert ls0 != [];
      var l := ls0[0];
      assert ls0 == [l] + ls0[1..] && GoodLabel(l);
      WireCons(ls0, l, ls0[1..]);
      WirePart(a0, l, Wire(ls0[1..]), b);
      a', ls' := a0 + Part(l), ls0[1..];
    }
  }

  /** A full wire form holds no pointer at a label boundary. */
  lemma {:induction false} NoPointer(p: seq<byte>, a: seq<byte>, ls: seq<Label>, b: seq<byte>)
    requires GoodLabels(ls) && ShortLabels(ls) && p == a + (Wire(ls) + b)
    ensures !Loops(p, |a|)
  {
    assert p[|a|] == Wire(ls)[0];
    assert ls != [] ==> GoodLabel(ls[0]);
  }

  lemma {:induction false} WireEnds(ls: seq<Label>)
    requires ShortLabels(ls)
    ensures |Wire(ls)| > 0 && Wire(ls)[|Wire(ls)| - 1] == 0
  {
    if ls != [] {
      WireEnds(ls[1..]);
    }
  }

  /** The wire form of a name is terminated, traps nobody, and stands for that name and no other. */
  lemma {:induction false} WireReadable(name: seq<byte>, a: seq<byte>, b: seq<byte>, p: seq<byte>)
    requires GoodName(name) && ShortLabels(Labels(name)) && |name| <= 254 && p == a + (Wire(Labels(name)) + b)
    ensures Terminated(p, |a|) && Readable(p, |a|, 256, Labels(name))
    ensures forall n :: !Trapped(p, Cursor(|a|, 0), 256, n)
    ensures forall ls :: Readable(p, |a|, 256, ls) ==> Dotted(ls) == name
  {
    var ls := Labels(name);
    WireOfName(name);
    DottedLabels(name);
    WireEnds(ls);
    assert p[|a| + |name| + 1] == 0;
    WireExpands(true, a, ls, b, p, |ls| + 1);
    forall ms | Readable(p, |a|, 256, ms) ensures Dotted(ms) == name {
      NamesUnique(true, p, |a|, ls, ms);
    }
    forall n ensures !Trapped(p, Cursor(|a|, 0), 256, n) {
      if Walk(p, Cursor(|a|, 0), 256, n).Some? {
        var a', ls' := WalkAlong(p, a, ls, b, 256, n);
        NoPointer(p, a', ls', b);
      }
    }
  }

  lemma {:induction false} GoodAreShort(ls: seq<Label>)
    requires GoodLabels(ls)
    ensures ShortLabels(ls)
  {
    if ls != [] {
      GoodAreShort(ls[1..]);
    }
  }

  lemma {:induction false} GoodIsShort(name: seq<byte>)
    requires GoodName(name)
    ensures ShortLabels(Labels(name))
  {
    GoodAreShort(Labels(name));
  }

  /** What was encoded anywhere in a packet decodes to itself, and both report the same number of bytes. */
  method RoundTrip(name: seq<byte>, packet: array<byte>, at: nat, output: array<byte>)
    returns (written: nat, r: Outcome)
    requires GoodName(name) && |name| <= 254 && at + |name| + 2 <= packet.Length
    requires output.Length == 256 && packet != output
    modifies packet, output
    ensures written == |name| + 2 && r == Decoded(written) && output[..|name| + 1] == name + [0]
  {
    GoodIsShort(name);
    ghost var a, b := packet[..at], packet[at + |name| + 2..];
    WireOfName(name);
    NameEventIs(Labels(name), at, packet.Length - at, packet.Length);
    RoomTakes(Labels(name), packet.Length - at);
    var e;
    e, written := EncodeName(name, packet, at, packet.Length - at);
    Assoc(a, Wire(Labels(name)), b);
    WireReadable(name, a, b, packet[..]);
    ghost var ls;
    r, ls := DecodeName(packet[..], at, output, 256);
  }
}
