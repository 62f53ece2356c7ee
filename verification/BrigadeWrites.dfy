/** Writing into a brigade: `apr_brigade_write`, `apr_brigade_writev`, `apr_brigade_vputstrs`. */
module BrigadeWrites {
  import opened Bytes
  import opened Buckets
  import opened BucketSteps
  import opened Rings
  import opened Stores
  import opened Brigades

  lemma {:induction false} FlatConcat(a: seq<seq<byte>>, b: seq<seq<byte>>)
    ensures Flat(a + b) == Flat(a) + Flat(b)
  {
    if b == [] {
      assert a + b == a;
    } else {
      var short := b[..|b| - 1];
      assert (a + b)[..|a + b| - 1] == a + short;
      FlatConcat(a, short);
      Assoc(Flat(a), Flat(short), b[|b| - 1]);
    }
  }

  lemma {:induction false} FlatNext(vec: seq<seq<byte>>, i: nat)
    requires i < |vec|
    ensures Flat(vec[..i + 1]) == Flat(vec[..i]) + vec[i]
    ensures |Flat(vec[..i + 1])| <= |Flat(vec)|
  {
    assert vec[..i + 1][..i] == vec[..i];
    assert vec == vec[..i + 1] + vec[i + 1..];
    FlatConcat(vec[..i + 1], vec[i + 1..]);
  }

  /** Where a flush callback sends what it takes from a brigade. */
  class Sink {
    var out: seq<byte>
    /** How often the callback was called, and how many of the calls failed. */
    ghost var calls: nat
    ghost var failed: nat
  }

  ghost function Calls(sink: Sink?): nat
    reads if sink == null then {} else {sink}
  {
    if sink == null then 0 else sink.calls
  }

  ghost function Failed(sink: Sink?): nat
    reads if sink == null then {} else {sink}
  {
    if sink == null then 0 else sink.failed
  }

  /** The last bucket may be written into. */
  predicate HasBuffer(m: Memory, ids: seq<Id>) {
    ids != [] && Writable(m, ids[|ids| - 1])
  }

  /** What the last bucket takes, or a new one. */
  function RoomAtEnd(m: Memory, ids: seq<Id>): int {
    if HasBuffer(m, ids) then Room(m, ids[|ids| - 1]) else BUFF_SIZE
  }

  /** The n bytes went into the last bucket, or into the one new buffer behind it. */
  ghost predicate Buffered(m0: Memory, ids0: seq<Id>, m: Memory, ids: seq<Id>, n: nat) {
    && HasBuffer(m, ids) && RoomAtEnd(m, ids) == RoomAtEnd(m0, ids0) - n
    && if HasBuffer(m0, ids0) then ids == ids0 else ids[..|ids| - 1] == ids0
  }

  /**
    Any flush callback that passes bytes on in order: it takes some buckets from the front, reads them,
    passes them on whole or in part, and deletes what it passed on; it may fail at any time.
   */
  method Flush(b: Brigade, sink: Sink) returns (status: Status)
    requires b.Valid()
    modifies b`ring, b.store, sink
    ensures b.Valid() && Derived(old(b.store.mem), old(b.ring), b.store.mem, b.ring)
    ensures sink.out + b.Bytes() == old(sink.out + b.Bytes())
    ensures status == Success || status == IoError
    ensures sink.calls == old(sink.calls) + 1 && sink.failed == old(sink.failed) + Failures(status)
  {
    ghost var m0, ids0 := b.store.mem, b.ring;
    var n: nat := *;
    DerivedSelf(m0, ids0);
    sink.calls := sink.calls + 1;
    while n > 0 && b.ring != []
      invariant b.Valid() && Derived(m0, ids0, b.store.mem, b.ring)
      invariant sink.out + b.Bytes() == old(sink.out + b.Bytes())
      invariant sink.calls == old(sink.calls) + 1 && sink.failed == old(sink.failed)
      decreases n
    {
      status := PassFirst(b, sink, m0, ids0);
      if status != Success {
        sink.failed := sink.failed + 1;
        return;
      }
      n := n - 1;
    }
    var fails: bool := *;
    status := if fails then IoError else Success;
    sink.failed := sink.failed + Failures(status);
  }

  method PassFirst(b: Brigade, sink: Sink, ghost m0: Memory, ghost ids0: seq<Id>) returns (status: Status)
    requires b.Valid() && b.ring != [] && IdsOk(m0) && Derived(m0, ids0, b.store.mem, b.ring)
    modifies b`ring, b.store, sink`out
    ensures b.Valid() && Derived(m0, ids0, b.store.mem, b.ring)
    ensures sink.out + b.Bytes() == old(sink.out + b.Bytes())
    ensures status == Success || status == IoError
  {
    var str;
    ghost var added;
    status, str, added := b.ReadAt(0);
    DerivedTrans(m0, ids0, old(b.store.mem), old(b.ring), b.store.mem, b.ring);
    SidesWhole(old(b.store.mem), old(b.ring), b.store.mem, b.ring);
    if status != Success {
      return;
    }
    var part := SplitSome(b, str, m0, ids0);
    ghost var m1, ids1 := b.store.mem, b.ring;
    b.DeleteFirst();
    DerivedTrans(m0, ids0, m1, ids1, b.store.mem, b.ring);
    Assoc(sink.out, part, b.Bytes());
    sink.out := sink.out + part;
  }

  lemma {:induction false} PointWithin(m: Memory, id: Id, point: nat)
    requires id in m.buckets && BucketOk(m, m.buckets[id]) && CanSplit(m.buckets[id], point)
    ensures point <= |Content(m, id)|
  {
    LengthIs(m, id);
  }

  /** Splits the first bucket anywhere, or not at all. */
  method SplitSome(b: Brigade, str: seq<byte>, ghost m0: Memory, ghost ids0: seq<Id>) returns (part: seq<byte>)
    requires b.Valid() && b.ring != [] && IdsOk(m0) && Derived(m0, ids0, b.store.mem, b.ring)
    requires str == Content(b.store.mem, b.ring[0])
    modifies b`ring, b.store`mem
    ensures b.Valid() && b.ring != [] && Derived(m0, ids0, b.store.mem, b.ring) && b.Bytes() == old(b.Bytes())
    ensures part <= str && part == Content(b.store.mem, b.ring[0])
  {
    part := str;
    var point: int := *;
    if 0 <= point && CanSplit(b.store.mem.buckets[b.ring[0]], point) {
      PointWithin(b.store.mem, b.ring[0], point);
      part := str[..point];
      var status := b.SplitAt(0, point);
      DerivedTrans(m0, ids0, old(b.store.mem), old(b.ring), b.store.mem, b.ring);
      SidesWhole(old(b.store.mem), old(b.ring), b.store.mem, b.ring);
    }
  }

  /** What was flushed and what the brigade holds, one after the other. */
  ghost function Output(b: Brigade, sink: Sink?): seq<byte>
    reads b, b.store
    reads if sink == null then {} else {sink}
  {
    (if sink == null then [] else sink.out) + b.Bytes()
  }

  /** Flush if there is a callback, after `data` went into the brigade. */
  method FlushAfter(b: Brigade, sink: Sink?, ghost m0: Memory, ghost ids0: seq<Id>, ghost bytes0: seq<byte>,
                    ghost data: seq<byte>)
    returns (status: Status)
    requires b.Valid() && IdsOk(m0) && Derived(m0, ids0, b.store.mem, b.ring) && b.Bytes() == bytes0 + data
    modifies b`ring, b.store`mem
    modifies if sink == null then {} else {sink, b.store}
    ensures b.Valid() && Derived(m0, ids0, b.store.mem, b.ring)
    ensures Output(b, sink) == (if sink == null then [] else old(sink.out)) + bytes0 + data
    ensures status == Success || status == IoError
    ensures Failed(sink) == old(Failed(sink)) + Failures(status)
    ensures Calls(sink) == old(Calls(sink)) + (if sink == null then 0 else 1)
  {
    status := Success;
    if sink != null {
      ghost var m1, ids1 := b.store.mem, b.ring;
      Assoc(sink.out, bytes0, data);
      status := Flush(b, sink);
      DerivedTrans(m0, ids0, m1, ids1, b.store.mem, b.ring);
    }
  }

  lemma {:induction false} OutputGrows(b: Brigade, sink: Sink?, bytes0: seq<byte>, data: seq<byte>)
    requires b.Bytes() == bytes0 + data
    ensures Output(b, sink) == (if sink == null then [] else sink.out) + bytes0 + data
  {
    Assoc(if sink == null then [] else sink.out, bytes0, data);
  }

  /** `apr_brigade_write`: flushed output and brigade together grow by `str`, also when the flush fails. */
  method Write(b: Brigade, str: seq<byte>, sink: Sink?) returns (status: Status)
    requires b.Valid()
    modifies b`ring, b.store`mem
    modifies if sink == null then {} else {sink, b.store}
    ensures b.Valid() && Derived(old(b.store.mem), old(b.ring), b.store.mem, b.ring)
    ensures status == Success || status == IoError
    ensures Failed(sink) == old(Failed(sink)) + Failures(status)
    ensures Calls(sink) == old(Calls(sink)) +
                           (if sink != null && |str| > old(RoomAtEnd(b.store.mem, b.ring)) then 1 else 0)
    ensures |str| <= old(RoomAtEnd(b.store.mem, b.ring)) ==>
      Buffered(old(b.store.mem), old(b.ring), b.store.mem, b.ring, |str|)
    ensures Output(b, sink) == old(Output(b, sink)) + str
  {
    ghost var m0, ids0 := b.store.mem, b.ring;
    var hasBuffer := HasBuffer(b.store.mem, b.ring);
    var remaining := RoomAtEnd(b.store.mem, b.ring);
    if |str| > remaining {
      b.InsertNew(str, sink != null);
      status := FlushAfter(b, sink, m0, ids0, old(b.Bytes()), str);
      return;
    }
    if hasBuffer {
      b.ExtendLast(str);
    } else {
      InsertBuffered(b, str);
    }
    OutputGrows(b, sink, old(b.Bytes()), str);
    status := Success;
  }

  /** A new buffer, and the data in it. */
  method InsertBuffered(b: Brigade, data: seq<byte>)
    requires b.Valid() && |data| <= BUFF_SIZE
    modifies b`ring, b.store`mem
    ensures b.Valid() && Derived(old(b.store.mem), old(b.ring), b.store.mem, b.ring)
    ensures b.Bytes() == old(b.Bytes()) + data
    ensures HasBuffer(b.store.mem, b.ring) && b.ring[..|b.ring| - 1] == old(b.ring)
    ensures RoomAtEnd(b.store.mem, b.ring) == BUFF_SIZE - |data|
  {
    b.InsertBuffer();
    ghost var m1, ids1 := b.store.mem, b.ring;
    b.ExtendLast(data);
    DerivedTrans(old(b.store.mem), old(b.ring), m1, ids1, b.store.mem, b.ring);
  }

  /** `apr_brigade_write` without a flush callback. */
  method WriteOnly(b: Brigade, str: seq<byte>)
    requires b.Valid()
    modifies b`ring, b.store`mem
    ensures b.Valid() && Derived(old(b.store.mem), old(b.ring), b.store.mem, b.ring)
    ensures b.Bytes() == old(b.Bytes()) + str
  {
    var status := Write(b, str, null);
    assert Output(b, null) == b.Bytes() && old(Output(b, null)) == old(b.Bytes());
  }

  /** One new bucket for each vector. */
  method InsertAll(b: Brigade, vec: seq<seq<byte>>, transient: bool)
    requires b.Valid()
    modifies b`ring, b.store`mem
    ensures b.Valid() && Derived(old(b.store.mem), old(b.ring), b.store.mem, b.ring)
    ensures b.Bytes() == old(b.Bytes()) + Flat(vec)
  {
    ghost var m0, ids0, bytes0 := b.store.mem, b.ring, b.Bytes();
    DerivedSelf(m0, ids0);
    var i := 0;
    while i < |vec|
      invariant 0 <= i <= |vec| && b.Valid() && Derived(m0, ids0, b.store.mem, b.ring)
      invariant b.Bytes() == bytes0 + Flat(vec[..i])
    {
      ghost var m1, ids1 := b.store.mem, b.ring;
      b.InsertNew(vec[i], transient);
      DerivedTrans(m0, ids0, m1, ids1, b.store.mem, b.ring);
      FlatNext(vec, i);
      Assoc(bytes0, Flat(vec[..i]), vec[i]);
      i := i + 1;
    }
    assert vec[..i] == vec;
  }

  /** More than the last bucket takes, or than one new buffer would. */
  predicate Overflows(m: Memory, ids: seq<Id>, n: nat) {
    n > BUFF_SIZE || n > RoomAtEnd(m, ids)
  }

  /** The most of the vectors, from the first one on, that fit into `room` bytes. */
  ghost predicate LongestFit(vec: seq<seq<byte>>, written: seq<byte>, room: int) {
    exists next: nat ::
      next < |vec| && written == Flat(vec[..next]) && |written| <= room < |written| + |vec[next]|
  }

  /** The vectors from i on that fit into `room` bytes, one after the other, as `memcpy` lays them out. */
  method Gather(vec: seq<seq<byte>>, i: nat, room: nat) returns (chunk: seq<byte>, next: nat)
    requires i <= |vec|
    ensures i <= next <= |vec| && |chunk| <= room
    ensures Flat(vec[..i]) + chunk == Flat(vec[..next])
    ensures next < |vec| ==> |chunk| + |vec[next]| > room
    ensures |Flat(vec)| - |Flat(vec[..i])| <= room ==> next == |vec|
  {
    chunk, next := [], i;
    while next < |vec| && |vec[next]| <= room - |chunk|
      invariant i <= next <= |vec| && |chunk| <= room
      invariant Flat(vec[..i]) + chunk == Flat(vec[..next])
    {
      FlatNext(vec, next);
      Assoc(Flat(vec[..i]), chunk, vec[next]);
      chunk := chunk + vec[next];
      next := next + 1;
    }
    if next < |vec| {
      FlatNext(vec, next);
    }
  }

  method TotalOf(vec: seq<seq<byte>>) returns (total: nat)
    ensures total == |Flat(vec)|
  {
    total := 0;
    var i := 0;
    while i < |vec|
      invariant 0 <= i <= |vec| && total == |Flat(vec[..i])|
    {
      FlatNext(vec, i);
      total := total + |vec[i]|;
      i := i + 1;
    }
    assert vec[..i] == vec;
  }

  /** Allocate another heap bucket and copy the rest of the array, which is no larger than the bucket. */
  method WriteRest(b: Brigade, vec: seq<seq<byte>>, i: nat) returns (ghost rest: seq<byte>)
    requires b.Valid() && i <= |vec| && |Flat(vec)| <= BUFF_SIZE
    modifies b`ring, b.store`mem
    ensures b.Valid() && Derived(old(b.store.mem), old(b.ring), b.store.mem, b.ring)
    ensures b.Bytes() == old(b.Bytes()) + rest && Flat(vec[..i]) + rest == Flat(vec)
    ensures HasBuffer(b.store.mem, b.ring) && b.ring[..|b.ring| - 1] == old(b.ring)
    ensures RoomAtEnd(b.store.mem, b.ring) == BUFF_SIZE - |rest|
  {
    var chunk, next := Gather(vec, i, BUFF_SIZE);
    assert vec[..next] == vec;
    InsertBuffered(b, chunk);
    rest := chunk;
  }

  /** Copy what fits into the last bucket, a heap bucket that is not shared. */
  method WriteFitting(b: Brigade, vec: seq<seq<byte>>) returns (next: nat)
    requires b.Valid() && b.ring != [] && Writable(b.store.mem, b.ring[|b.ring| - 1])
    modifies b.store`mem
    ensures b.Valid() && Derived(old(b.store.mem), old(b.ring), b.store.mem, b.ring)
    ensures next <= |vec| && b.Bytes() == old(b.Bytes()) + Flat(vec[..next])
    ensures next == |vec| <==> |Flat(vec)| <= old(RoomAtEnd(b.store.mem, b.ring))
    ensures next == |vec| ==> Buffered(old(b.store.mem), b.ring, b.store.mem, b.ring, |Flat(vec)|)
    ensures next < |vec| ==>
      |Flat(vec[..next])| <= old(RoomAtEnd(b.store.mem, b.ring)) < |Flat(vec[..next])| + |vec[next]|
  {
    var remaining := Room(b.store.mem, b.ring[|b.ring| - 1]);
    var chunk;
    chunk, next := Gather(vec, 0, remaining);
    FromFirst(vec, chunk, next);
    b.ExtendLast(chunk);
  }

  /**
    `apr_brigade_writev`. All the vectors are written, unless a flush between the last bucket and a
    new one fails; then a prefix of them is.
   */
  method Writev(b: Brigade, vec: seq<seq<byte>>, sink: Sink?) returns (status: Status, ghost written: seq<byte>)
    requires b.Valid()
    modifies b`ring, b.store`mem
    modifies if sink == null then {} else {sink, b.store}
    ensures b.Valid() && Derived(old(b.store.mem), old(b.ring), b.store.mem, b.ring)
    ensures status == Success || status == IoError
    ensures Failed(sink) == old(Failed(sink)) + Failures(status)
    ensures Calls(sink) == old(Calls(sink)) +
                           (if sink != null && old(Overflows(b.store.mem, b.ring, |Flat(vec)|)) then 1 else 0)
    ensures !old(Overflows(b.store.mem, b.ring, |Flat(vec)|)) ==>
      status == Success && Buffered(old(b.store.mem), old(b.ring), b.store.mem, b.ring, |Flat(vec)|)
    ensures status == Success || |Flat(vec)| > BUFF_SIZE ==> written == Flat(vec)
    ensures status == IoError && |Flat(vec)| <= BUFF_SIZE ==>
      LongestFit(vec, written, old(RoomAtEnd(b.store.mem, b.ring)))
    ensures written <= Flat(vec)
    ensures Output(b, sink) == old(Output(b, sink)) + written
  {
    var total := TotalOf(vec);
    if total > BUFF_SIZE {
      InsertAll(b, vec, sink != null);
      written := Flat(vec);
      status := FlushAfter(b, sink, old(b.store.mem), old(b.ring), old(b.Bytes()), Flat(vec));
    } else {
      status, written := WritevSmall(b, vec, sink);
    }
  }

  /** Copy what fits into the last bucket; flush before another is needed. */
  method FillLast(b: Brigade, vec: seq<seq<byte>>, sink: Sink?) returns (status: Status, next: nat)
    requires b.Valid() && b.ring != [] && Writable(b.store.mem, b.ring[|b.ring| - 1])
    modifies b`ring, b.store`mem
    modifies if sink == null then {} else {sink, b.store}
    ensures b.Valid() && Derived(old(b.store.mem), old(b.ring), b.store.mem, b.ring)
    ensures status == Success || status == IoError
    ensures Failed(sink) == old(Failed(sink)) + Failures(status)
    ensures Calls(sink) == old(Calls(sink)) + (if sink != null && next < |vec| then 1 else 0)
    ensures next <= |vec| && (next == |vec| ==> status == Success)
    ensures next == |vec| <==> |Flat(vec)| <= old(RoomAtEnd(b.store.mem, b.ring))
    ensures next == |vec| ==> Buffered(old(b.store.mem), old(b.ring), b.store.mem, b.ring, |Flat(vec)|)
    ensures next < |vec| ==> LongestFit(vec, Flat(vec[..next]), old(RoomAtEnd(b.store.mem, b.ring)))
    ensures Output(b, sink) == old(Output(b, sink)) + Flat(vec[..next])
  {
    ghost var m0, ids0, bytes0 := b.store.mem, b.ring, b.Bytes();
    next := WriteFitting(b, vec);
    if next == |vec| {
      OutputGrows(b, sink, bytes0, Flat(vec[..next]));
      status := Success;
    } else {
      status := FlushAfter(b, sink, m0, ids0, bytes0, Flat(vec[..next]));
    }
  }

  /** The vectors from next on, behind those before. */
  method AppendRest(b: Brigade, vec: seq<seq<byte>>, next: nat, ghost sink: Sink?, ghost m0: Memory,
                    ghost ids0: seq<Id>, ghost out0: seq<byte>)
    requires b.Valid() && IdsOk(m0) && Derived(m0, ids0, b.store.mem, b.ring) && |Flat(vec)| <= BUFF_SIZE
    requires next <= |vec| && Output(b, sink) == out0 + Flat(vec[..next])
    modifies b`ring, b.store`mem
    ensures b.Valid() && Derived(m0, ids0, b.store.mem, b.ring) && Output(b, sink) == out0 + Flat(vec)
    ensures HasBuffer(b.store.mem, b.ring) && b.ring[..|b.ring| - 1] == old(b.ring)
    ensures RoomAtEnd(b.store.mem, b.ring) == BUFF_SIZE - (|Flat(vec)| - |Flat(vec[..next])|)
  {
    ghost var m1, ids1, bytes1 := b.store.mem, b.ring, b.Bytes();
    ghost var rest := WriteRest(b, vec, next);
    DerivedTrans(m0, ids0, m1, ids1, b.store.mem, b.ring);
    OutputGrows(b, sink, bytes1, rest);
    Assoc(out0, Flat(vec[..next]), rest);
  }

  /** The part of `apr_brigade_writev` for data that fits into one buffer. */
  method WritevSmall(b: Brigade, vec: seq<seq<byte>>, sink: Sink?) returns (status: Status, ghost written: seq<byte>)
    requires b.Valid() && |Flat(vec)| <= BUFF_SIZE
    modifies b`ring, b.store`mem
    modifies if sink == null then {} else {sink, b.store}
    ensures b.Valid() && Derived(old(b.store.mem), old(b.ring), b.store.mem, b.ring)
    ensures status == Success || status == IoError
    ensures Failed(sink) == old(Failed(sink)) + Failures(status)
    ensures Calls(sink) == old(Calls(sink)) +
                           (if sink != null && old(Overflows(b.store.mem, b.ring, |Flat(vec)|)) then 1 else 0)
    ensures !old(Overflows(b.store.mem, b.ring, |Flat(vec)|)) ==>
      status == Success && Buffered(old(b.store.mem), old(b.ring), b.store.mem, b.ring, |Flat(vec)|)
    ensures written <= Flat(vec) && (status == Success ==> written == Flat(vec))
    ensures status == IoError ==> LongestFit(vec, written, old(RoomAtEnd(b.store.mem, b.ring)))
    ensures Output(b, sink) == old(Output(b, sink)) + written
  {
    if HasBuffer(b.store.mem, b.ring) {
      status, written := FillThenAdd(b, vec, sink);
      return;
    }
    DerivedSelf(b.store.mem, b.ring);
    assert vec[..0] == [] && Output(b, sink) + [] == Output(b, sink);
    AppendRest(b, vec, 0, sink, old(b.store.mem), old(b.ring), old(Output(b, sink)));
    status, written := Success, Flat(vec);
  }

  /** The last bucket first, and what it does not take, after a flush, in a new one. */
  method FillThenAdd(b: Brigade, vec: seq<seq<byte>>, sink: Sink?) returns (status: Status, ghost written: seq<byte>)
    requires b.Valid() && |Flat(vec)| <= BUFF_SIZE && HasBuffer(b.store.mem, b.ring)
    modifies b`ring, b.store`mem
    modifies if sink == null then {} else {sink, b.store}
    ensures b.Valid() && Derived(old(b.store.mem), old(b.ring), b.store.mem, b.ring)
    ensures status == Success || status == IoError
    ensures Failed(sink) == old(Failed(sink)) + Failures(status)
    ensures Calls(sink) == old(Calls(sink)) +
                           (if sink != null && |Flat(vec)| > old(RoomAtEnd(b.store.mem, b.ring)) then 1 else 0)
    ensures |Flat(vec)| <= old(RoomAtEnd(b.store.mem, b.ring)) ==>
      status == Success && Buffered(old(b.store.mem), old(b.ring), b.store.mem, b.ring, |Flat(vec)|)
    ensures written <= Flat(vec) && (status == Success ==> written == Flat(vec))
    ensures status == IoError ==> LongestFit(vec, written, old(RoomAtEnd(b.store.mem, b.ring)))
    ensures Output(b, sink) == old(Output(b, sink)) + written
  {
    var next;
    status, next := FillLast(b, vec, sink);
    PrefixFlat(vec, next);
    written := Flat(vec[..next]);
    if next < |vec| && status == Success {
      AppendRest(b, vec, next, sink, old(b.store.mem), old(b.ring), old(Output(b, sink)));
      written := Flat(vec);
    }
  }

  lemma {:induction false} PrefixFlat(vec: seq<seq<byte>>, i: nat)
    requires i <= |vec|
    ensures Flat(vec[..i]) <= Flat(vec) && (i == |vec| ==> vec[..i] == vec)
  {
    assert vec == vec[..i] + vec[i..];
    FlatConcat(vec[..i], vec[i..]);
  }

  lemma {:induction false} FromFirst(vec: seq<seq<byte>>, chunk: seq<byte>, next: nat)
    requires next <= |vec| && Flat(vec[..0]) + chunk == Flat(vec[..next])
    ensures Flat(vec[..0]) == [] && chunk == Flat(vec[..next]) && |Flat(vec[..next])| <= |Flat(vec)|
    ensures next == |vec| ==> chunk == Flat(vec)
  {
    assert vec[..0] == [] && [] + chunk == chunk;
    PrefixFlat(vec, next);
  }

  const MAX_VECS := 8

  /** The brigade has become what it was with s behind it, some of which may have been flushed. */
  ghost predicate Wrote(b: Brigade, sink: Sink?, m0: Memory, ids0: seq<Id>, out0: seq<byte>, s: seq<byte>)
    reads b, b.store
    reads if sink == null then {} else {sink}
  {
    b.Valid() && IdsOk(m0) && Derived(m0, ids0, b.store.mem, b.ring) && Output(b, sink) == out0 + s
  }

  /** The next strings, MAX_VECS of them or all that are left. */
  method NextBatch(strs: seq<seq<byte>>, from: nat) returns (vec: seq<seq<byte>>, k: nat)
    requires from < |strs|
    ensures from < k <= |strs| && vec == strs[from..k] && |vec| <= MAX_VECS && (|vec| == MAX_VECS || k == |strs|)
  {
    vec, k := [], from;
    while k < |strs| && |vec| < MAX_VECS
      invariant from <= k <= |strs| && |vec| <= MAX_VECS && vec == strs[from..k]
    {
      vec := vec + [strs[k]];
      k := k + 1;
    }
  }

  /** `apr_brigade_vputstrs`: the strings in batches of MAX_VECS. */
  method Vputstrs(b: Brigade, strs: seq<seq<byte>>, sink: Sink?) returns (status: Status, ghost written: seq<byte>)
    requires b.Valid()
    modifies b`ring, b.store`mem
    modifies if sink == null then {} else {sink, b.store}
    ensures Wrote(b, sink, old(b.store.mem), old(b.ring), old(Output(b, sink)), written)
    ensures written <= Flat(strs) && (status == Success ==> written == Flat(strs))
    ensures status == Success || status == IoError
    ensures Failed(sink) == old(Failed(sink)) + Failures(status)
  {
    ghost var m0, ids0, out0 := b.store.mem, b.ring, Output(b, sink);
    DerivedSelf(m0, ids0);
    assert out0 + [] == out0;
    var from := 0;
    written, status := [], Success;
    while from < |strs|
      invariant 0 <= from <= |strs| && status == Success && written == Flat(strs[..from])
      invariant Wrote(b, sink, m0, ids0, out0, written) && Failed(sink) == old(Failed(sink))
    {
      status, from, written := WriteBatch(b, strs, from, sink, m0, ids0, out0);
      if status != Success {
        return;
      }
    }
    PrefixFlat(strs, from);
  }

  lemma {:induction false} BatchFlat(strs: seq<seq<byte>>, from: nat, k: nat, part: seq<byte>)
    requires from <= k <= |strs| && part <= Flat(strs[from..k])
    ensures Flat(strs[..from]) + part <= Flat(strs)
    ensures Flat(strs[..from]) + Flat(strs[from..k]) == Flat(strs[..k])
  {
    assert strs[..k] == strs[..from] + strs[from..k];
    FlatConcat(strs[..from], strs[from..k]);
    PrefixFlat(strs, k);
  }

  /** One batch, after the strings before it were written. */
  method WriteBatch(b: Brigade, strs: seq<seq<byte>>, from: nat, sink: Sink?, ghost m0: Memory, ghost ids0: seq<Id>,
                    ghost out0: seq<byte>)
    returns (status: Status, k: nat, ghost written: seq<byte>)
    requires from < |strs| && Wrote(b, sink, m0, ids0, out0, Flat(strs[..from]))
    modifies b`ring, b.store`mem
    modifies if sink == null then {} else {sink, b.store}
    ensures from < k <= |strs| && Wrote(b, sink, m0, ids0, out0, written)
    ensures written <= Flat(strs) && (status == Success ==> written == Flat(strs[..k]))
    ensures status == Success || status == IoError
    ensures Failed(sink) == old(Failed(sink)) + Failures(status)
  {
    ghost var m1, ids1, part := b.store.mem, b.ring, [];
    var vec;
    vec, k := NextBatch(strs, from);
    status, part := Writev(b, vec, sink);
    DerivedTrans(m0, ids0, m1, ids1, b.store.mem, b.ring);
    BatchFlat(strs, from, k, part);
    Assoc(out0, Flat(strs[..from]), part);
    written := Flat(strs[..from]) + part;
  }
}
