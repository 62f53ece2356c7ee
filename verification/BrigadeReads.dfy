/**
  Whole-brigade operations of apr-util/buckets/apr_brigade.c that do not write bytes:
  `apr_brigade_length`, `apr_brigade_flatten`, `apr_brigade_cleanup` and `apr_brigade_split_ex`.
 */
module BrigadeReads {
  import opened Bytes
  import opened Buckets
  import opened BucketSteps
  import opened Rings
  import opened Stores
  import opened Brigades

  ghost predicate HasPipe(m: Memory, ids: seq<Id>) {
    exists i :: 0 <= i < |ids| && ids[i] in m.buckets && m.buckets[ids[i]].Pipe?
  }

  /** The first bucket whose length is unknown. */
  ghost predicate IsFirstPipe(m: Memory, ids: seq<Id>, i: nat) {
    i < |ids| && ids[i] in m.buckets && m.buckets[ids[i]].Pipe? && NoPipe(m, ids, i)
  }

  /**
    `apr_brigade_length`: the number of bytes, or -1 if it is not known and `readAll` is not set. When a read
    fails it is the number of bytes before the bucket that could not be read.
   */
  method TotalLength(b: Brigade, readAll: bool) returns (status: Status, length: int)
    requires b.Valid()
    modifies b`ring, b.store
    ensures b.Valid() && Derived(old(b.store.mem), old(b.ring), b.store.mem, b.ring)
    ensures b.Bytes() == old(b.Bytes())
    ensures status == Success || status == IoError
    ensures b.store.failed == old(b.store.failed) + Failures(status)
    ensures readAll && status == Success ==> length == |b.Bytes()|
    ensures status != Success ==>
      exists i: nat :: IsFirstPipe(b.store.mem, b.ring, i) && length == |Stream(b.store.mem, b.ring[..i])|
    ensures !readAll ==> status == Success && b.store.mem == old(b.store.mem) && b.ring == old(b.ring)
    ensures !readAll ==> length == if HasPipe(b.store.mem, b.ring) then -1 else |b.Bytes()|
  {
    ghost var m0, ids0 := b.store.mem, b.ring;
    WalkStarts(m0, ids0);
    length := 0;
    var i := 0;
    while i < |b.ring|
      invariant b.Valid() && 0 <= i <= |b.ring| && Walk(m0, ids0, b.store.mem, b.ring, i, length)
      invariant NoPipe(b.store.mem, b.ring, i) && b.store.failed == old(b.store.failed)
      invariant !readAll ==> b.store.mem == m0 && b.ring == ids0
      decreases |Stream(b.store.mem, b.ring[i..])|, |b.ring| - i
    {
      var known;
      status, known, length := AddLength(b, i, readAll, length, m0, ids0);
      if !known || status != Success {
        return;
      }
      i := i + 1;
    }
    assert b.ring[..i] == b.ring;
    status := Success;
  }

  /** The length of bucket i is added, after reading it if it has to be. */
  method AddLength(b: Brigade, i: nat, readAll: bool, total: int, ghost m0: Memory, ghost ids0: seq<Id>)
    returns (status: Status, known: bool, length: int)
    requires b.Valid() && IdsOk(m0) && i < |b.ring| && Walk(m0, ids0, b.store.mem, b.ring, i, total)
    requires NoPipe(b.store.mem, b.ring, i)
    modifies b`ring, b.store
    ensures b.Valid() && Derived(m0, ids0, b.store.mem, b.ring) && b.Bytes() == Stream(m0, ids0)
    ensures !readAll ==> status == Success && b.store.mem == old(b.store.mem) && b.ring == old(b.ring)
    ensures status == Success || status == IoError
    ensures b.store.failed == old(b.store.failed) + Failures(status)
    ensures known <==> readAll || !old(b.store.mem.buckets[b.ring[i]]).Pipe?
    ensures !known ==> length == -1
    ensures status != Success ==> IsFirstPipe(b.store.mem, b.ring, i) && length == |Stream(b.store.mem, b.ring[..i])|
    ensures known && status == Success ==>
      i < |b.ring| && Walk(m0, ids0, b.store.mem, b.ring, i + 1, length) && NoPipe(b.store.mem, b.ring, i + 1)
    ensures known && status == Success ==>
      Passed(Stream(old(b.store.mem), old(b.ring)[i..]), |old(b.ring)|, Stream(b.store.mem, b.ring[i + 1..]), |b.ring|)
  {
    status, known, length := Success, true, total;
    if b.store.mem.buckets[b.ring[i]].Pipe? {
      if !readAll {
        return Success, false, -1;
      }
      var len;
      status, len := b.ReadOnWalk(i, m0, ids0, total);
      if status != Success {
        return;
      }
    }
    LengthIs(b.store.mem, b.ring[i]);
    WalkMoves(m0, ids0, b.store.mem, b.ring, i, total);
    length := total + Length(b.store.mem.buckets[b.ring[i]]);
  }

  /** Bytes were passed, or the ring did not grow. */
  predicate Passed(before: seq<byte>, n: nat, after: seq<byte>, n': nat) {
    |after| < |before| || (|after| == |before| && n' <= n)
  }

  /** The bytes of bucket i stand in the stream where the walk is. */
  lemma {:induction false} WalkReads(m0: Memory, ids0: seq<Id>, m: Memory, ids: seq<Id>, i: nat, done: nat)
    requires Walk(m0, ids0, m, ids, i, done) && i < |ids|
    ensures done + |Content(m, ids[i])| <= |Stream(m0, ids0)|
    ensures Stream(m0, ids0)[done..done + |Content(m, ids[i])|] == Content(m, ids[i])
  {
    StreamSplit(m, ids, i);
    StreamAt(m, ids, i);
  }

  lemma {:induction false} WalkEnds(m0: Memory, ids0: seq<Id>, m: Memory, ids: seq<Id>, done: int)
    requires Walk(m0, ids0, m, ids, |ids|, done)
    ensures done == |Stream(m0, ids0)| && Derived(m0, ids0, m, ids) && Stream(m, ids) == Stream(m0, ids0)
  {
    assert ids[..|ids|] == ids;
  }

  /** The first `actual` bytes of the array are those of `all`, the others are as they were. */
  ghost predicate Filled(c: array<byte>, was: seq<byte>, all: seq<byte>, actual: nat)
    reads c
  {
    && actual <= |all| && actual <= c.Length == |was|
    && c[..actual] == all[..actual] && c[actual..] == was[actual..]
  }

  method CopyNext(c: array<byte>, ghost was: seq<byte>, ghost all: seq<byte>, actual: nat, data: seq<byte>)
    requires Filled(c, was, all, actual) && actual + |data| <= c.Length && actual + |data| <= |all|
    requires all[actual..actual + |data|] == data
    modifies c
    ensures Filled(c, was, all, actual + |data|)
  {
    CopyInto(c, actual, data);
    assert all[..actual + |data|] == all[..actual] + data;
  }

  /** Bucket i has to be read and cannot be; the bytes before it do not fill the buffer. */
  ghost predicate StopsAt(m: Memory, ids: seq<Id>, i: nat, actual: nat, len: nat) {
    && i < |ids| && ids[i] in m.buckets && Fallible(m.buckets[ids[i]])
    && actual == |Stream(m, ids[..i])| && (i == 0 || actual < len)
  }

  /** `apr_brigade_flatten`: as many bytes as the brigade has and the buffer is said to hold. */
  method Flatten(b: Brigade, c: array<byte>, len: nat) returns (status: Status, actual: nat, ghost at: nat)
    requires b.Valid() && len <= c.Length
    modifies b`ring, b.store, c
    ensures b.Valid() && Derived(old(b.store.mem), old(b.ring), b.store.mem, b.ring)
    ensures b.Bytes() == old(b.Bytes())
    ensures status == Success || status == IoError
    ensures b.store.failed == old(b.store.failed) + Failures(status)
    ensures status == Success ==> actual == Min(len, |b.Bytes()|)
    ensures Filled(c, old(c[..]), b.Bytes(), actual) && actual <= len
    ensures status == IoError ==> StopsAt(b.store.mem, b.ring, at, actual, len)
  {
    WalkStarts(b.store.mem, b.ring);
    status, actual, at := FlattenFrom(b, c, len, b.store.mem, b.ring, c[..]);
  }

  method FlattenFrom(b: Brigade, c: array<byte>, len: nat, ghost m0: Memory, ghost ids0: seq<Id>, ghost was: seq<byte>)
    returns (status: Status, actual: nat, ghost at: nat)
    requires b.Valid() && IdsOk(m0) && len <= c.Length && Walk(m0, ids0, b.store.mem, b.ring, 0, 0)
    requires Filled(c, was, Stream(m0, ids0), 0)
    modifies b`ring, b.store, c
    ensures b.Valid() && Derived(m0, ids0, b.store.mem, b.ring) && b.Bytes() == Stream(m0, ids0)
    ensures status == Success || status == IoError
    ensures b.store.failed == old(b.store.failed) + Failures(status)
    ensures status == Success ==> actual == Min(len, |Stream(m0, ids0)|)
    ensures Filled(c, was, Stream(m0, ids0), actual) && actual <= len
    ensures status == IoError ==> StopsAt(b.store.mem, b.ring, at, actual, len)
  {
    actual := 0;
    var i := 0;
    while i < |b.ring|
      invariant b.Valid() && 0 <= i <= |b.ring| && Walk(m0, ids0, b.store.mem, b.ring, i, actual)
      invariant actual <= len && Filled(c, was, Stream(m0, ids0), actual) && (i == 0 || actual < len)
      invariant b.store.failed == old(b.store.failed)
      decreases |Stream(b.store.mem, b.ring[i..])|, |b.ring| - i
    {
      var total;
      status, total := FlattenNext(b, i, c, len, actual, m0, ids0, was);
      if status != Success || total >= len {
        return status, total, i;
      }
      actual := total;
      i := i + 1;
    }
    WalkEnds(m0, ids0, b.store.mem, b.ring, actual);
    return Success, actual, i;
  }

  /** One round of the loop: it ends because a read fails or the buffer is full, or bucket i is passed. */
  method FlattenNext(b: Brigade, i: nat, c: array<byte>, len: nat, actual: nat,
                     ghost m0: Memory, ghost ids0: seq<Id>, ghost was: seq<byte>)
    returns (status: Status, total: nat)
    requires b.Valid() && IdsOk(m0) && i < |b.ring| && Walk(m0, ids0, b.store.mem, b.ring, i, actual)
    requires actual <= len <= c.Length && Filled(c, was, Stream(m0, ids0), actual) && (i == 0 || actual < len)
    modifies b`ring, b.store, c
    ensures b.Valid() && Derived(m0, ids0, b.store.mem, b.ring) && b.Bytes() == Stream(m0, ids0)
    ensures status == Success || status == IoError
    ensures b.store.failed == old(b.store.failed) + Failures(status)
    ensures status == IoError ==> StopsAt(b.store.mem, b.ring, i, total, len)
    ensures Filled(c, was, Stream(m0, ids0), total) && total <= len
    ensures status == Success && total >= len ==> total == Min(len, |Stream(m0, ids0)|)
    ensures status == Success && total < len ==> i < |b.ring| && Walk(m0, ids0, b.store.mem, b.ring, i + 1, total)
    ensures status == Success && total < len ==>
      Passed(Stream(old(b.store.mem), old(b.ring)[i..]), |old(b.ring)|, Stream(b.store.mem, b.ring[i + 1..]), |b.ring|)
  {
    status, total := FlattenBucket(b, i, c, len, actual, m0, ids0, was);
    if status == Success && total < len {
      WalkMoves(m0, ids0, b.store.mem, b.ring, i, actual);
    }
  }

  /** Read bucket i and copy its bytes, no more than the buffer still takes. */
  method FlattenBucket(b: Brigade, i: nat, c: array<byte>, len: nat, actual: nat,
                       ghost m0: Memory, ghost ids0: seq<Id>, ghost was: seq<byte>)
    returns (status: Status, total: nat)
    requires b.Valid() && IdsOk(m0) && i < |b.ring| && Walk(m0, ids0, b.store.mem, b.ring, i, actual)
    requires actual <= len <= c.Length && Filled(c, was, Stream(m0, ids0), actual) && (i == 0 || actual < len)
    modifies b`ring, b.store, c
    ensures b.Valid() && i < |b.ring| && Walk(m0, ids0, b.store.mem, b.ring, i, actual)
    ensures Stream(b.store.mem, b.ring[i..]) == Stream(old(b.store.mem), old(b.ring)[i..])
    ensures status == Success || status == IoError
    ensures b.store.failed == old(b.store.failed) + Failures(status)
    ensures status == IoError ==> StopsAt(b.store.mem, b.ring, i, total, len)
    ensures status == Success ==> total == Min(len, actual + |Content(b.store.mem, b.ring[i])|)
    ensures status != Success ==> total == actual
    ensures Filled(c, was, Stream(m0, ids0), total)
    ensures |b.ring| == |old(b.ring)| || (status == Success && Content(b.store.mem, b.ring[i]) != [])
  {
    var n;
    status, n := b.ReadOnWalk(i, m0, ids0, actual);
    total := actual;
    if status == Success {
      WalkReads(m0, ids0, b.store.mem, b.ring, i, actual);
      total := CopyClipped(c, was, Stream(m0, ids0), len, actual, Content(b.store.mem, b.ring[i]));
    }
  }

  method CopyClipped(c: array<byte>, ghost was: seq<byte>, ghost all: seq<byte>, len: nat, actual: nat, str: seq<byte>)
    returns (total: nat)
    requires Filled(c, was, all, actual) && actual <= len <= c.Length
    requires actual + |str| <= |all| && all[actual..actual + |str|] == str
    modifies c
    ensures total == Min(len, actual + |str|) && Filled(c, was, all, total)
  {
    var n := Min(|str|, len - actual);
    assert all[actual..actual + n] == str[..n];
    CopyNext(c, was, all, actual, str[..n]);
    total := actual + |str[..n]|;
  }

  /** `apr_brigade_cleanup`: no bucket of the brigade is left, nor a block that only they referred to. */
  method Cleanup(b: Brigade)
    requires b.Valid()
    modifies b`ring, b.store`mem
    ensures b.Valid() && b.ring == [] && Derived(old(b.store.mem), old(b.ring), b.store.mem, [])
    ensures forall x :: x in old(b.ring) ==> x !in b.store.mem.buckets
  {
    ghost var m0, ids0, gone := b.store.mem, b.ring, 0;
    DerivedSelf(m0, ids0);
    while b.ring != []
      invariant b.Valid() && 0 <= gone <= |ids0| && b.ring == ids0[gone..]
      invariant Derived(m0, ids0, b.store.mem, b.ring)
      invariant forall j :: 0 <= j < gone ==> ids0[j] !in b.store.mem.buckets
      invariant m0.next <= b.store.mem.next
      decreases |b.ring|
    {
      ghost var m1, ids1 := b.store.mem, b.ring;
      b.DeleteFirst();
      DerivedTrans(m0, ids0, m1, ids1, b.store.mem, b.ring);
      GoneStays(m0, ids0, m1, b.store.mem, ids1, gone);
      gone := gone + 1;
    }
  }

  lemma {:induction false} GoneStays(m0: Memory, ids0: seq<Id>, m1: Memory, m2: Memory, ids1: seq<Id>, gone: nat)
    requires IdsOk(m0) && RingOk(m0, ids0) && gone < |ids0| && m0.next <= m1.next
    requires Evolves(m1, m2, Elems(ids1)) && ids0[gone] !in m2.buckets
    requires forall j :: 0 <= j < gone ==> ids0[j] !in m1.buckets
    ensures forall j :: 0 <= j <= gone ==> ids0[j] !in m2.buckets
  {
    forall j | 0 <= j < gone ensures ids0[j] !in m2.buckets {
      assert ids0[j] in m0.buckets;
    }
  }

  /** `apr_brigade_split_ex` into a brigade, which is emptied first: the buckets from index i on. */
  method SplitFrom(b: Brigade, i: nat, a: Brigade)
    requires b.Valid() && a.Valid() && a != b && a.store == b.store && Apart(a.ring, b.ring) && i <= |b.ring|
    modifies a`ring, b`ring, b.store`mem
    ensures a.Valid() && b.Valid() && Apart(a.ring, b.ring)
    ensures b.ring == old(b.ring)[..i] && a.ring == old(b.ring)[i..]
    ensures b.Bytes() + a.Bytes() == old(b.Bytes())
    ensures Evolves(old(b.store.mem), b.store.mem, Elems(old(a.ring)))
    ensures forall x :: x in old(a.ring) ==> x !in b.store.mem.buckets
  {
    EmptyOther(a, b);
    CutFrom(b, i, a);
  }

  method EmptyOther(a: Brigade, b: Brigade)
    requires a.Valid() && b.Valid() && a != b && a.store == b.store && Apart(a.ring, b.ring)
    modifies a`ring, a.store`mem
    ensures a.Valid() && b.Valid() && a.ring == [] && b.Bytes() == old(b.Bytes())
    ensures Evolves(old(b.store.mem), b.store.mem, Elems(old(a.ring)))
    ensures forall x :: x in old(a.ring) ==> x !in b.store.mem.buckets
  {
    ghost var ids := a.ring;
    forall x | x in b.ring ensures x !in ids { }
    if a.ring != [] {
      Cleanup(a);
      OthersKept(old(a.store.mem), ids, a.store.mem, [], b.ring);
    }
  }

  method CutFrom(b: Brigade, i: nat, a: Brigade)
    requires b.Valid() && a != b && a.store == b.store && a.ring == [] && i <= |b.ring|
    modifies a`ring, b`ring
    ensures a.Valid() && b.Valid() && Apart(a.ring, b.ring)
    ensures b.ring == old(b.ring)[..i] && a.ring == old(b.ring)[i..]
    ensures b.Bytes() + a.Bytes() == old(b.Bytes())
  {
    ghost var m := b.store.mem;
    assert b.ring == b.ring[..i] + b.ring[i..];
    PartsOk(m, b.ring[..i], b.ring[i..]);
    StreamSplit(m, b.ring, i);
    a.ring := b.ring[i..];
    b.ring := b.ring[..i];
  }
}
