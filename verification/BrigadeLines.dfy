/** `apr_brigade_split_line`: move one line from a brigade to another. */
module BrigadeLines {
  import opened Bytes
  import opened Buckets
  import opened BucketSteps
  import opened Rings
  import opened Stores
  import opened Brigades
  import opened BrigadeWrites

  const LF: byte := 10

  /** Two brigades over one memory that have no bucket in common. */
  ghost predicate Pair(dst: Brigade, src: Brigade)
    reads dst, src, dst.store
  {
    dst != src && src.store == dst.store && dst.Valid() && src.Valid() && Apart(dst.ring, src.ring)
  }

  lemma {:induction false} ApartSym(a: seq<Id>, b: seq<Id>)
    requires Apart(a, b)
    ensures Apart(b, a)
  {
    forall x | x in b ensures x !in a { }
  }

  /** The first bucket was read; what is left of it, if anything, is in `added`. */
  ghost predicate HeadRead(m: Memory, ids: seq<Id>, m': Memory, added: seq<Id>, str: seq<byte>) {
    && ids != [] && Takes(m, ids[0], m', added, str) && Kept(m, m', ids[1..])
    && |Content(m, ids[0])| == |str| + |Stream(m', added)|
  }

  lemma {:induction false} ReadsHead(m: Memory, ids: seq<Id>, m': Memory, added: seq<Id>, str: seq<byte>)
    requires RingOk(m, ids) && ids != [] && Unfolds(m, ids[0], m', added) && Takes(m, ids[0], m', added, str)
    requires str == Content(m', ids[0])
    ensures HeadRead(m, ids, m', added, str)
  {
    TailKept(m, ids, m');
  }

  lemma {:induction false} HeadGrown(ids: seq<Id>, added: seq<Id>)
    requires ids != []
    ensures Grown(ids, 0, added)[1..] == added + ids[1..]
  {
  }

  /** All that was read of the first bucket is taken. */
  ghost predicate AllTaken(ids: seq<Id>, m1: Memory, added: seq<Id>, m': Memory, ids': seq<Id>) {
    ids != [] && ids' == added + ids[1..] && Kept(m1, m', ids')
  }

  method ReadHead(dst: Brigade, src: Brigade) returns (status: Status, str: seq<byte>, ghost added: seq<Id>)
    requires Pair(dst, src) && src.ring != []
    modifies src`ring, src.store
    ensures Pair(dst, src) && src.ring != []
    ensures Derived(old(dst.store.mem), dst.ring + old(src.ring), dst.store.mem, dst.ring + src.ring)
    ensures dst.Bytes() == old(dst.Bytes()) && src.Bytes() == old(src.Bytes())
    ensures status == Success || status == IoError
    ensures dst.store.failed == old(dst.store.failed) + Failures(status)
    ensures status == IoError ==> src.ring == old(src.ring) && Fallible(dst.store.mem.buckets[src.ring[0]])
    ensures status == Success ==>
      str == Content(dst.store.mem, src.ring[0]) && !Fallible(dst.store.mem.buckets[src.ring[0]])
    ensures |src.ring| == |old(src.ring)| || str != []
    ensures src.ring[1..] == added + old(src.ring)[1..]
    ensures status == Success ==> HeadRead(old(src.store.mem), old(src.ring), src.store.mem, added, str)
  {
    status, str, added := src.ReadAt(0);
    HeadGrown(old(src.ring), added);
    if status == Success {
      ReadsHead(old(src.store.mem), old(src.ring), src.store.mem, added, str);
    }
    SidesWhole(old(src.store.mem), old(src.ring), src.store.mem, src.ring);
    DerivedBeside(old(src.store.mem), old(src.ring), src.store.mem, src.ring, dst.ring);
  }

  method SplitHead(dst: Brigade, src: Brigade, point: nat)
    requires Pair(dst, src) && src.ring != [] && CanSplit(src.store.mem.buckets[src.ring[0]], point)
    modifies src`ring, src.store`mem
    ensures Pair(dst, src) && src.ring != []
    ensures Derived(old(dst.store.mem), dst.ring + old(src.ring), dst.store.mem, dst.ring + src.ring)
    ensures dst.Bytes() == old(dst.Bytes()) && src.Bytes() == old(src.Bytes())
    ensures Content(dst.store.mem, src.ring[0]) == Content(old(dst.store.mem), old(src.ring)[0])[..point]
  {
    var status := src.SplitAt(0, point);
    SidesWhole(old(src.store.mem), old(src.ring), src.store.mem, src.ring);
    DerivedBeside(old(src.store.mem), old(src.ring), src.store.mem, src.ring, dst.ring);
  }

  /** Take the first bucket out of one ring and insert it at the tail of the other. */
  method MoveHead(dst: Brigade, src: Brigade)
    requires Pair(dst, src) && src.ring != []
    modifies src`ring, dst`ring
    ensures Pair(dst, src) && src.ring == old(src.ring)[1..]
    ensures dst.ring + src.ring == old(dst.ring + src.ring)
    ensures dst.Bytes() == old(dst.Bytes()) + Content(dst.store.mem, old(src.ring)[0])
    ensures old(src.Bytes()) == Content(dst.store.mem, old(src.ring)[0]) + src.Bytes()
  {
    ghost var m := dst.store.mem;
    var e := src.ring[0];
    ConcatOk(m, dst.ring, src.ring);
    src.ring := src.ring[1..];
    dst.ring := dst.ring + [e];
    assert dst.ring + src.ring == old(dst.ring + src.ring);
    PartsOk(m, dst.ring, src.ring);
    TailStream(m, old(dst.ring), e);
  }

  method WriteBeside(dst: Brigade, src: Brigade, str: seq<byte>)
    requires Pair(dst, src) && src.ring != []
    modifies dst`ring, dst.store`mem
    ensures Pair(dst, src) && dst.Bytes() == old(dst.Bytes()) + str && src.Bytes() == old(src.Bytes())
    ensures Derived(old(dst.store.mem), old(dst.ring) + src.ring, dst.store.mem, dst.ring + src.ring)
    ensures Kept(old(dst.store.mem), dst.store.mem, src.ring)
  {
    ApartSym(dst.ring, src.ring);
    WriteOnly(dst, str);
    DerivedBeside(old(dst.store.mem), old(dst.ring), dst.store.mem, dst.ring, src.ring);
    KeptBeside(old(dst.store.mem), old(dst.ring), dst.store.mem, dst.ring, src.ring);
  }

  method DropHead(dst: Brigade, src: Brigade)
    requires Pair(dst, src) && src.ring != []
    modifies src`ring, src.store`mem
    ensures Pair(dst, src) && src.ring == old(src.ring)[1..]
    ensures Derived(old(dst.store.mem), dst.ring + old(src.ring), dst.store.mem, dst.ring + src.ring)
    ensures dst.Bytes() == old(dst.Bytes())
    ensures old(src.Bytes()) == Content(old(src.store.mem), old(src.ring)[0]) + src.Bytes()
    ensures Kept(old(src.store.mem), src.store.mem, src.ring)
  {
    src.DeleteFirst();
    TailKept(old(src.store.mem), old(src.ring), src.store.mem);
    DerivedBeside(old(src.store.mem), old(src.ring), src.store.mem, src.ring, dst.ring);
  }

  /** Write the bytes of the first bucket to the other brigade and destroy the bucket. */
  method CopyHead(dst: Brigade, src: Brigade, str: seq<byte>)
    requires Pair(dst, src) && src.ring != [] && str == Content(src.store.mem, src.ring[0])
    modifies src`ring, dst`ring, dst.store`mem
    ensures Pair(dst, src) && src.ring == old(src.ring)[1..]
    ensures Derived(old(dst.store.mem), old(dst.ring + src.ring), dst.store.mem, dst.ring + src.ring)
    ensures dst.Bytes() == old(dst.Bytes()) + str
    ensures old(src.Bytes()) == str + src.Bytes()
    ensures Kept(old(src.store.mem), src.store.mem, src.ring)
  {
    ghost var m0, all0 := dst.store.mem, dst.ring + src.ring;
    assert RingOk(m0, all0) by { ConcatOk(m0, dst.ring, src.ring); }
    if |str| > 0 {
      WriteBeside(dst, src, str);
    } else {
      DerivedSelf(m0, all0);
    }
    ghost var m1, all1 := dst.store.mem, dst.ring + src.ring;
    assert Kept(m0, m1, src.ring) && Keeps(m0, m1, src.ring[0]);
    DropHead(dst, src);
    KeptTrans(m0, m1, dst.store.mem, src.ring);
    DerivedTrans(m0, all0, m1, all1, dst.store.mem, dst.ring + src.ring);
  }

  // ----- The line

  method FindLF(str: seq<byte>) returns (pos: int)
    ensures -1 <= pos < |str|
    ensures pos >= 0 ==> str[pos] == LF && LF !in str[..pos]
    ensures pos < 0 ==> LF !in str
  {
    pos := 0;
    while pos < |str|
      invariant 0 <= pos <= |str| && LF !in str[..pos]
    {
      if str[pos] == LF {
        return;
      }
      pos := pos + 1;
    }
    pos := -1;
  }

  /** One LF, at the end. */
  ghost predicate IsLine(s: seq<byte>) {
    s != [] && s[|s| - 1] == LF && LF !in s[..|s| - 1]
  }

  lemma {:induction false} LineEnds(moved: seq<byte>, str: seq<byte>, pos: nat)
    requires LF !in moved && pos < |str| && str[pos] == LF && LF !in str[..pos]
    ensures IsLine(moved + str[..pos + 1])
  {
    var line := moved + str[..pos + 1];
    assert line[..|line| - 1] == moved + str[..pos];
  }

  /** What is taken from a bucket: up to and with the LF, if there is one. */
  function Part(str: seq<byte>, pos: int): seq<byte>
    requires pos < |str|
  {
    if pos >= 0 then str[..pos + 1] else str
  }

  // ----- The limit

  /**
    The bytes of the brigade m0, ids0 from `at` up to `total` are from its bucket k: from its
    beginning if the bucket is in memory, and no more than a buffer of them if it has to be read.
   */
  ghost predicate LastPiece(m0: Memory, ids0: seq<Id>, k: nat, at: nat, total: nat) {
    && k < |ids0| && ids0[k] in m0.buckets
    && |Stream(m0, ids0[..k])| <= at <= total <= |Stream(m0, ids0[..k])| + |Content(m0, ids0[k])|
    && if Fallible(m0.buckets[ids0[k]]) then total - at <= BUFF_SIZE else at == |Stream(m0, ids0[..k])|
  }

  /** Of the `total` bytes moved fewer than `maxbytes`, or none, were moved before the last piece. */
  ghost predicate WithinLimit(m0: Memory, ids0: seq<Id>, total: nat, maxbytes: int) {
    total == 0 || exists k: nat, at: nat :: LastPiece(m0, ids0, k, at, total) && (at == 0 || at < maxbytes)
  }

  /** Buckets before the k-th are taken, and nothing of that one. */
  ghost predicate FreshFrom(m0: Memory, ids0: seq<Id>, m: Memory, ids: seq<Id>, k: nat, done: nat) {
    k <= |ids0| && ids == ids0[k..] && Kept(m0, m, ids) && done == |Stream(m0, ids0[..k])|
  }

  /** Part of the k-th bucket, which has to be read, is taken. */
  ghost predicate PartOf(m0: Memory, ids0: seq<Id>, m: Memory, ids: seq<Id>, k: nat, done: nat) {
    && k < |ids0| && ids != [] && ids[1..] == ids0[k + 1..] && Kept(m0, m, ids[1..])
    && ids0[k] in m0.buckets && Fallible(m0.buckets[ids0[k]])
    && ids[0] in m.buckets && Fallible(m.buckets[ids[0]])
    && |Stream(m0, ids0[..k])| <= done
    && done + |Content(m, ids[0])| == |Stream(m0, ids0[..k])| + |Content(m0, ids0[k])|
  }

  ghost predicate FreshOrPart(m0: Memory, ids0: seq<Id>, m: Memory, ids: seq<Id>, k: nat, done: nat) {
    FreshFrom(m0, ids0, m, ids, k, done) || PartOf(m0, ids0, m, ids, k, done)
  }

  /** What is left of the brigade m0, ids0 when `done` bytes were moved. The quantifier keeps it closed. */
  ghost predicate Left(m0: Memory, ids0: seq<Id>, m: Memory, ids: seq<Id>, k: nat, done: nat) {
    forall n: nat {:trigger FreshOrPart(m0, ids0, m, ids, k, n)} :: n == done ==> FreshOrPart(m0, ids0, m, ids, k, n)
  }

  lemma {:induction false} LeftAtStart(m0: Memory, ids0: seq<Id>)
    requires RingOk(m0, ids0)
    ensures Left(m0, ids0, m0, ids0, 0, 0)
  {
    assert ids0[0..] == ids0;
  }

  lemma {:induction false} NextPiece(m0: Memory, ids0: seq<Id>, m: Memory, ids: seq<Id>, k: nat, done: nat,
                                     m': Memory, added: seq<Id>, str: seq<byte>, n: nat)
    requires Left(m0, ids0, m, ids, k, done) && HeadRead(m, ids, m', added, str) && n <= |str|
    ensures LastPiece(m0, ids0, k, done, done + n)
  {
    assert FreshOrPart(m0, ids0, m, ids, k, done);
    assert FreshFrom(m0, ids0, m, ids, k, done) ==> ids[0] == ids0[k] && Keeps(m0, m, ids[0]);
  }

  /** Another piece, when the limit is not reached. */
  lemma {:induction false} LimitKept(m0: Memory, ids0: seq<Id>, m: Memory, ids: seq<Id>, k: nat, done: nat,
                                     m': Memory, added: seq<Id>, str: seq<byte>, n: nat, maxbytes: int)
    requires Left(m0, ids0, m, ids, k, done) && HeadRead(m, ids, m', added, str) && n <= |str|
    requires done == 0 || done < maxbytes
    ensures WithinLimit(m0, ids0, done + n, maxbytes)
  {
    NextPiece(m0, ids0, m, ids, k, done, m', added, str, n);
  }

  lemma {:induction false} TailStays(m0: Memory, ids0: seq<Id>, m: Memory, ids: seq<Id>, k: nat, done: nat)
    requires Left(m0, ids0, m, ids, k, done) && ids != []
    ensures k < |ids0| && ids[1..] == ids0[k + 1..] && Kept(m0, m, ids[1..])
  {
    assert FreshOrPart(m0, ids0, m, ids, k, done);
    if FreshFrom(m0, ids0, m, ids, k, done) {
      forall i | 0 <= i < |ids[1..]| ensures Keeps(m0, m, ids[1..][i]) {
        assert Keeps(m0, m, ids[1 + i]);
      }
    }
  }

  lemma {:induction false} KeptTail(m: Memory, m': Memory, a: seq<Id>, b: seq<Id>)
    requires Kept(m, m', a + b)
    ensures Kept(m, m', b)
  {
    forall i | 0 <= i < |b| ensures Keeps(m, m', b[i]) {
      assert (a + b)[|a| + i] == b[i];
    }
  }

  /** How many bytes of the k-th bucket are left when the first bucket is read. */
  lemma {:induction false} PieceLeft(m0: Memory, ids0: seq<Id>, m: Memory, ids: seq<Id>, k: nat, done: nat)
    requires Left(m0, ids0, m, ids, k, done) && ids != [] && k < |ids0|
    ensures |Stream(m0, ids0[..k])| <= done
    ensures done + |Content(m, ids[0])| == |Stream(m0, ids0[..k])| + |Content(m0, ids0[k])|
    ensures ids[0] in m.buckets && ids0[k] in m0.buckets
    ensures Fallible(m.buckets[ids[0]]) == Fallible(m0.buckets[ids0[k]])
  {
    assert FreshOrPart(m0, ids0, m, ids, k, done);
    assert FreshFrom(m0, ids0, m, ids, k, done) ==> ids[0] == ids0[k] && Keeps(m0, m, ids[0]);
  }

  /** What is left when all that was read is taken: the next bucket, or the rest of this one. */
  lemma {:induction false} LeftNext(m0: Memory, ids0: seq<Id>, m: Memory, ids: seq<Id>, k: nat, done: nat,
                                    m1: Memory, added: seq<Id>, str: seq<byte>, m': Memory, ids': seq<Id>)
    requires Left(m0, ids0, m, ids, k, done) && HeadRead(m, ids, m1, added, str)
    requires AllTaken(ids, m1, added, m', ids')
    ensures Left(m0, ids0, m', ids', if added == [] then k + 1 else k, done + |str|)
  {
    TailStays(m0, ids0, m, ids, k, done);
    PieceLeft(m0, ids0, m, ids, k, done);
    KeptTail(m1, m', added, ids[1..]);
    KeptTrans(m0, m, m1, ids[1..]);
    KeptTrans(m0, m1, m', ids[1..]);
    if added == [] {
      FreshNext(m0, ids0, k, m1, m', ids[1..], ids', done, str);
    } else {
      PartNext(m0, ids0, k, m1, m', added, ids[1..], ids', done, str);
    }
  }

  lemma {:induction false} FreshNext(m0: Memory, ids0: seq<Id>, k: nat, m1: Memory, m': Memory, tail: seq<Id>,
                                     ids': seq<Id>,
                                     done: nat, str: seq<byte>)
    requires k < |ids0| && tail == ids0[k + 1..] && Kept(m0, m', tail) && ids' == [] + tail
    requires done + |str| == |Stream(m0, ids0[..k])| + |Content(m0, ids0[k])|
    ensures FreshFrom(m0, ids0, m', ids', k + 1, done + |str|)
  {
    StreamAt(m0, ids0, k);
    assert ids' == tail;
  }

  lemma {:induction false} PartNext(m0: Memory, ids0: seq<Id>, k: nat, m1: Memory, m': Memory, added: seq<Id>,
                                    tail: seq<Id>,
                                    ids': seq<Id>, done: nat, str: seq<byte>)
    requires k < |ids0| && tail == ids0[k + 1..] && Kept(m0, m', tail)
    requires |added| == 1 && ids' == added + tail && Kept(m1, m', ids')
    requires added[0] in m1.buckets && Fallible(m1.buckets[added[0]])
    requires ids0[k] in m0.buckets && Fallible(m0.buckets[ids0[k]]) && |Stream(m0, ids0[..k])| <= done
    requires done + |str| + |Stream(m1, added)| == |Stream(m0, ids0[..k])| + |Content(m0, ids0[k])|
    ensures PartOf(m0, ids0, m', ids', k, done + |str|)
  {
    assert ids'[1..] == tail;
    assert Keeps(m1, m', ids'[0]);
    StreamOne(m1, added[0]);
    assert added == [added[0]];
  }

  /** A round: the limit holds of what was moved, and if the loop goes on, it is known what is left. */
  lemma {:induction false} RoundEnds(m0: Memory, ids0: seq<Id>, m: Memory, ids: seq<Id>, k: nat, done: nat,
                                     m1: Memory, added: seq<Id>, str: seq<byte>, m': Memory, ids': seq<Id>,
                                     total: nat, found: bool, maxbytes: int)
    returns (k': nat)
    requires Left(m0, ids0, m, ids, k, done) && HeadRead(m, ids, m1, added, str)
    requires done <= total <= done + |str| && (done == 0 || done < maxbytes)
    requires !found ==> total == done + |str| && AllTaken(ids, m1, added, m', ids')
    ensures WithinLimit(m0, ids0, total, maxbytes)
    ensures !found ==> Left(m0, ids0, m', ids', k', total)
  {
    LimitKept(m0, ids0, m, ids, k, done, m1, added, str, total - done, maxbytes);
    k' := if added == [] then k + 1 else k;
    if !found {
      LeftNext(m0, ids0, m, ids, k, done, m1, added, str, m', ids');
    }
  }

  // ----- The loop

  /** The loop body of `apr_brigade_split_line`: read the first bucket and take it, or its part up to an LF. */
  method TakeHead(dst: Brigade, src: Brigade)
    returns (status: Status, str: seq<byte>, pos: int, ghost m1: Memory, ghost added: seq<Id>)
    requires Pair(dst, src) && src.ring != []
    modifies dst`ring, src`ring, dst.store
    ensures Pair(dst, src) && Derived(old(dst.store.mem), old(dst.ring + src.ring), dst.store.mem, dst.ring + src.ring)
    ensures status == Success || status == IoError
    ensures dst.store.failed == old(dst.store.failed) + Failures(status)
    ensures status == IoError ==> dst.Bytes() == old(dst.Bytes()) && src.Bytes() == old(src.Bytes())
    ensures status == IoError ==> src.ring != [] && Fallible(dst.store.mem.buckets[src.ring[0]])
    ensures status == Success ==> -1 <= pos < |str|
    ensures status == Success && pos >= 0 ==> str[pos] == LF && LF !in str[..pos]
    ensures status == Success && pos < 0 ==> LF !in str && (|src.ring| < |old(src.ring)| || str != [])
    ensures status == Success ==> dst.Bytes() == old(dst.Bytes()) + Part(str, pos)
    ensures status == Success ==> old(src.Bytes()) == Part(str, pos) + src.Bytes()
    ensures status == Success ==> HeadRead(old(src.store.mem), old(src.ring), m1, added, str)
    ensures status == Success && pos < 0 ==> src.ring == added + old(src.ring)[1..] && Kept(m1, src.store.mem, src.ring)
  {
    pos := -1;
    status, str, added := ReadHead(dst, src);
    m1 := dst.store.mem;
    if status != Success {
      return;
    }
    ghost var all1 := dst.ring + src.ring;
    pos := FindLF(str);
    TakeRead(dst, src, str, pos);
    DerivedTrans(old(dst.store.mem), old(dst.ring + src.ring), m1, all1, dst.store.mem, dst.ring + src.ring);
  }

  method TakeRead(dst: Brigade, src: Brigade, str: seq<byte>, pos: int)
    requires Pair(dst, src) && src.ring != [] && -1 <= pos < |str|
    requires str == Content(src.store.mem, src.ring[0]) && !Fallible(src.store.mem.buckets[src.ring[0]])
    modifies dst`ring, src`ring, dst.store`mem
    ensures Pair(dst, src) && Derived(old(dst.store.mem), old(dst.ring + src.ring), dst.store.mem, dst.ring + src.ring)
    ensures dst.Bytes() == old(dst.Bytes()) + Part(str, pos)
    ensures old(src.Bytes()) == Part(str, pos) + src.Bytes()
    ensures pos < 0 ==> src.ring == old(src.ring)[1..] && Kept(old(src.store.mem), src.store.mem, src.ring)
  {
    if pos >= 0 {
      LengthIs(src.store.mem, src.ring[0]);
      SplitHead(dst, src, pos + 1);
      MoveHead(dst, src);
    } else if src.store.mem.buckets[src.ring[0]].Meta? || |str| > BUFF_SIZE / 4 {
      ConcatOk(dst.store.mem, dst.ring, src.ring);
      DerivedSelf(dst.store.mem, dst.ring + src.ring);
      MoveHead(dst, src);
    } else {
      CopyHead(dst, src, str);
    }
  }

  /**
    `apr_brigade_split_line`. The limit is stated of the brigade as it was: what was moved before the
    last piece is less than `maxbytes`, and the piece is a bucket in memory or at most a buffer.
   */
  method SplitLine(dst: Brigade, src: Brigade, maxbytes: int) returns (status: Status, ghost moved: seq<byte>)
    requires Pair(dst, src)
    modifies dst`ring, src`ring, dst.store
    ensures Pair(dst, src)
    ensures Derived(old(dst.store.mem), old(dst.ring + src.ring), dst.store.mem, dst.ring + src.ring)
    ensures dst.Bytes() == old(dst.Bytes()) + moved
    ensures old(src.Bytes()) == moved + src.Bytes()
    ensures status == Success ==> IsLine(moved) || (LF !in moved && (src.ring == [] || |moved| >= maxbytes))
    ensures status == Success && old(src.ring) != [] ==> moved != [] || |src.ring| < |old(src.ring)|
    ensures status == IoError ==> LF !in moved && src.ring != [] && Fallible(dst.store.mem.buckets[src.ring[0]])
    ensures status == Success || status == IoError
    ensures dst.store.failed == old(dst.store.failed) + Failures(status)
    ensures WithinLimit(old(src.store.mem), old(src.ring), |moved|, maxbytes)
  {
    ghost var m0, all0, ids0, input, bytes0 := dst.store.mem, dst.ring + src.ring, src.ring, src.Bytes(), dst.Bytes();
    assert Derived(m0, all0, m0, all0) by { ConcatOk(m0, dst.ring, src.ring); }
    ghost var k: nat := 0;
    LeftAtStart(m0, ids0);
    moved := [];
    var readbytes := 0;
    while src.ring != []
      invariant Pair(dst, src) && Derived(m0, all0, dst.store.mem, dst.ring + src.ring)
      invariant dst.Bytes() == bytes0 + moved && input == moved + src.Bytes()
      invariant dst.store.failed == old(dst.store.failed)
      invariant LF !in moved && readbytes == |moved| && (moved == [] || readbytes < maxbytes)
      invariant WithinLimit(m0, ids0, |moved|, maxbytes) && (moved == [] ==> |src.ring| <= |ids0|)
      invariant Left(m0, ids0, src.store.mem, src.ring, k, |moved|)
      decreases |src.Bytes()|, |src.ring|
    {
      var found;
      status, found, readbytes, moved, k :=
        TakeNext(dst, src, readbytes, m0, all0, ids0, input, bytes0, moved, k, maxbytes);
      if status != Success || found || readbytes >= maxbytes {
        return;
      }
    }
    status := Success;
  }

  /** One round of the loop: the bytes it has moved are within the limit, and what is left is known. */
  method TakeNext(dst: Brigade, src: Brigade, readbytes: nat, ghost m0: Memory, ghost all0: seq<Id>,
                  ghost ids0: seq<Id>,
                  ghost input: seq<byte>, ghost bytes0: seq<byte>, ghost moved: seq<byte>, ghost k: nat,
                  ghost maxbytes: int)
    returns (status: Status, found: bool, readbytes': nat, ghost moved': seq<byte>, ghost k': nat)
    requires Pair(dst, src) && src.ring != [] && IdsOk(m0) && Derived(m0, all0, dst.store.mem, dst.ring + src.ring)
    requires dst.Bytes() == bytes0 + moved && input == moved + src.Bytes() && readbytes == |moved|
    requires LF !in moved && (moved == [] || |moved| < maxbytes)
    requires Left(m0, ids0, src.store.mem, src.ring, k, |moved|)
    modifies dst`ring, src`ring, dst.store
    ensures Pair(dst, src) && Derived(m0, all0, dst.store.mem, dst.ring + src.ring)
    ensures dst.Bytes() == bytes0 + moved' && input == moved' + src.Bytes()
    ensures status == Success || status == IoError
    ensures dst.store.failed == old(dst.store.failed) + Failures(status)
    ensures status == Success ==> WithinLimit(m0, ids0, |moved'|, maxbytes)
    ensures status == IoError ==> moved' == moved && src.ring != [] && Fallible(dst.store.mem.buckets[src.ring[0]])
    ensures status == Success && found ==> IsLine(moved')
    ensures status == Success && !found ==> LF !in moved' && readbytes' == |moved'|
    ensures status == Success && !found ==> Left(m0, ids0, src.store.mem, src.ring, k', |moved'|)
    ensures status == Success && !found ==> |moved| < |moved'| || (moved' == moved && |src.ring| < |old(src.ring)|)
  {
    ghost var m1, added, read;
    ghost var m, ids := src.store.mem, src.ring;
    k' := k;
    status, found, readbytes', moved', m1, added, read := TakePart(dst, src, readbytes, m0, all0, input, bytes0, moved);
    if status == Success {
      k' := RoundEnds(m0, ids0, m, ids, k, |moved|, m1, added, read, src.store.mem, src.ring, |moved'|, found,
                      maxbytes);
    }
  }

  /** One round of the loop, and the bytes it has moved: from those that were read, all or up to an LF. */
  method TakePart(dst: Brigade, src: Brigade, readbytes: nat, ghost m0: Memory, ghost all0: seq<Id>,
                  ghost input: seq<byte>, ghost bytes0: seq<byte>, ghost moved: seq<byte>)
    returns (status: Status, found: bool, readbytes': nat, ghost moved': seq<byte>,
             ghost m1: Memory, ghost added: seq<Id>, ghost read: seq<byte>)
    requires Pair(dst, src) && src.ring != [] && IdsOk(m0) && Derived(m0, all0, dst.store.mem, dst.ring + src.ring)
    requires dst.Bytes() == bytes0 + moved && input == moved + src.Bytes() && readbytes == |moved| && LF !in moved
    modifies dst`ring, src`ring, dst.store
    ensures Pair(dst, src) && Derived(m0, all0, dst.store.mem, dst.ring + src.ring)
    ensures dst.Bytes() == bytes0 + moved' && input == moved' + src.Bytes()
    ensures status == Success || status == IoError
    ensures dst.store.failed == old(dst.store.failed) + Failures(status)
    ensures status == IoError ==> moved' == moved && src.ring != [] && Fallible(dst.store.mem.buckets[src.ring[0]])
    ensures status == Success && found ==> IsLine(moved')
    ensures status == Success ==> |moved| <= |moved'| <= |moved| + |read|
    ensures status == Success ==> HeadRead(old(src.store.mem), old(src.ring), m1, added, read)
    ensures status == Success && !found ==> LF !in moved' && readbytes' == |moved'| == |moved| + |read|
    ensures status == Success && !found ==> AllTaken(old(src.ring), m1, added, src.store.mem, src.ring)
    ensures status == Success && !found ==> read != [] || (moved' == moved && |src.ring| < |old(src.ring)|)
  {
    var str, pos;
    status, str, pos, m1, added := TakeHead(dst, src);
    DerivedTrans(m0, all0, old(dst.store.mem), old(dst.ring + src.ring), dst.store.mem, dst.ring + src.ring);
    found, readbytes', moved', read := false, readbytes, moved, str;
    if status != Success {
      return;
    }
    ghost var part := Part(str, pos);
    Assoc(bytes0, moved, part);
    Assoc(moved, part, src.Bytes());
    moved' := moved + part;
    found := pos >= 0;
    if found {
      LineEnds(moved, str, pos);
    } else {
      readbytes' := readbytes + |str|;
    }
  }
}
