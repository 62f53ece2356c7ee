/**
  Bucket brigades (apr-util/buckets/apr_brigade.c): rings of buckets over one memory, changed in
  place. A bucket is named by its index in the ring; the sentinel is the index past the last one.
 */
module Brigades {
  import opened Bytes
  import opened Buckets
  import opened BucketSteps
  import opened Rings
  import opened Stores

  /** The ring in m has the same bytes before and from index i on as the ring that was there before. */
  ghost predicate SameSides(m: Memory, ids: seq<Id>, i: nat, m': Memory, ids': seq<Id>) {
    && i <= |ids| && i <= |ids'|
    && Stream(m', ids'[..i]) == Stream(m, ids[..i])
    && Stream(m', ids'[i..]) == Stream(m, ids[i..])
  }

  /** A walk along a ring that may grow on the way has passed `done` bytes before index i. */
  ghost predicate Walk(m0: Memory, ids0: seq<Id>, m: Memory, ids: seq<Id>, i: nat, done: int) {
    && Derived(m0, ids0, m, ids) && i <= |ids|
    && Stream(m, ids) == Stream(m0, ids0)
    && |Stream(m, ids[..i])| == done
  }

  lemma {:induction false} WalkStarts(m: Memory, ids: seq<Id>)
    requires RingOk(m, ids)
    ensures Walk(m, ids, m, ids, 0, 0)
  {
  }

  lemma {:induction false} WalkChanges(m0: Memory, ids0: seq<Id>, m: Memory, ids: seq<Id>, i: nat, done: int,
                                       m': Memory, ids': seq<Id>)
    requires IdsOk(m0) && Walk(m0, ids0, m, ids, i, done)
    requires Derived(m, ids, m', ids') && SameSides(m, ids, i, m', ids')
    ensures Walk(m0, ids0, m', ids', i, done)
  {
    DerivedTrans(m0, ids0, m, ids, m', ids');
    StreamSplit(m, ids, i);
    StreamSplit(m', ids', i);
  }

  lemma {:induction false} WalkMoves(m0: Memory, ids0: seq<Id>, m: Memory, ids: seq<Id>, i: nat, done: int)
    requires Walk(m0, ids0, m, ids, i, done) && i < |ids|
    ensures Walk(m0, ids0, m, ids, i + 1, done + |Content(m, ids[i])|)
    ensures Stream(m, ids[i..]) == Content(m, ids[i]) + Stream(m, ids[i + 1..])
  {
    StreamAt(m, ids, i);
  }

  /** The ring is cut at index i: the first `point` bytes of the old stream before, the others from there on. */
  ghost predicate CutAt(m0: Memory, ids0: seq<Id>, m: Memory, ids: seq<Id>, i: nat, point: int) {
    && i <= |ids| && 0 <= point <= |Stream(m0, ids0)|
    && Stream(m, ids[..i]) == Stream(m0, ids0)[..point]
    && Stream(m, ids[i..]) == Stream(m0, ids0)[point..]
  }

  lemma {:induction false} WalkCuts(m0: Memory, ids0: seq<Id>, m: Memory, ids: seq<Id>, i: nat, done: int)
    requires Walk(m0, ids0, m, ids, i, done)
    ensures CutAt(m0, ids0, m, ids, i, done)
  {
    StreamSplit(m, ids, i);
  }

  /** None of the first n buckets is a pipe. */
  ghost predicate NoPipe(m: Memory, ids: seq<Id>, n: nat) {
    n <= |ids| && forall j :: 0 <= j < n ==> ids[j] in m.buckets && !m.buckets[ids[j]].Pipe?
  }

  lemma {:induction false} NoPipeStays(m: Memory, ids: seq<Id>, i: nat, m': Memory, added: seq<Id>)
    requires RingOk(m, ids) && i < |ids| && Unfolds(m, ids[i], m', added) && NoPipe(m, ids, i)
    ensures NoPipe(m', Grown(ids, i, added), i)
  {
    forall j | 0 <= j < i ensures Keeps(m, m', ids[j]) && Grown(ids, i, added)[j] == ids[j] { }
  }

  lemma {:induction false} SidesWhole(m: Memory, ids: seq<Id>, m': Memory, ids': seq<Id>)
    requires SameSides(m, ids, 0, m', ids')
    ensures Stream(m', ids') == Stream(m, ids)
  {
    assert ids'[0..] == ids' && ids[0..] == ids;
  }

  lemma {:induction false} ExtendDerives(m: Memory, ids: seq<Id>, last: Id, data: seq<byte>)
    requires Inv(m)
    requires RingOk(m, ids)
    requires ids != []
    requires last == ids[|ids| - 1]
    requires Writable(m, last)
    requires |data| <= Room(m, last)
    ensures BucketOk(m, m.buckets[last])
    ensures var m' := Append(m, last, data); Derived(m, ids, m', ids) && Stream(m', ids) == Stream(m, ids) + data
  {
    AppendSound(m, last, data);
    TailExtended(m, ids, last, Append(m, last, data), data);
  }

  lemma {:induction false} AppendRoom(m: Memory, id: Id, data: seq<byte>)
    requires Writable(m, id) && BucketOk(m, m.buckets[id]) && |data| <= Room(m, id)
    ensures Writable(Append(m, id, data), id) && Room(Append(m, id, data), id) == Room(m, id) - |data|
  {
  }

  class Brigade {
    const store: Store
    var ring: seq<Id>

    ghost predicate Valid()
      reads this, store
    {
      Inv(store.mem) && RingOk(store.mem, ring)
    }

    ghost function Bytes(): seq<byte>
      reads this, store
    {
      Stream(store.mem, ring)
    }

    /** `apr_brigade_create`. */
    constructor (store: Store)
      requires Inv(store.mem)
      ensures this.store == store && ring == [] && Valid()
    {
      this.store := store;
      ring := [];
    }

    method ReadAt(i: nat) returns (status: Status, str: seq<byte>, ghost added: seq<Id>)
      requires Valid() && i < |ring|
      modifies this`ring, store
      ensures Valid() && Derived(old(store.mem), old(ring), store.mem, ring)
      ensures SameSides(old(store.mem), old(ring), i, store.mem, ring)
      ensures ring == Grown(old(ring), i, added) && ring[i] == old(ring)[i]
      ensures status == Success || status == IoError
      ensures store.failed == old(store.failed) + Failures(status)
      ensures status == IoError ==>
        store.mem == old(store.mem) && ring == old(ring) && Fallible(store.mem.buckets[ring[i]])
      ensures status == Success ==> str == Content(store.mem, ring[i]) && !Fallible(store.mem.buckets[ring[i]])
      ensures added != [] ==> str != []
      ensures Unfolds(old(store.mem), old(ring)[i], store.mem, added)
      ensures Takes(old(store.mem), old(ring)[i], store.mem, added, str)
    {
      var more;
      status, str, more := store.Read(ring[i]);
      added := more;
      UnfoldsDerived(old(store.mem), ring, i, store.mem, more);
      UnfoldsStream(old(store.mem), ring, i, store.mem, more);
      ring := Grown(ring, i, more);
    }

    method SplitAt(i: nat, point: nat) returns (status: Status)
      requires Valid() && i < |ring|
      modifies this`ring, store`mem
      ensures Valid() && Derived(old(store.mem), old(ring), store.mem, ring)
      ensures SameSides(old(store.mem), old(ring), i, store.mem, ring)
      ensures status == NotImplemented <==>
        old(store.mem.buckets[ring[i]]).Pipe? || old(store.mem.buckets[ring[i]]).Meta?
      ensures status == Success <==> CanSplit(old(store.mem.buckets[ring[i]]), point)
      ensures status == Success ==> i < |ring| && ring[i] == old(ring)[i]
      ensures status == Success ==> Content(store.mem, ring[i]) == Content(old(store.mem), old(ring)[i])[..point]
      ensures status != Success ==> store.mem == old(store.mem) && ring == old(ring)
    {
      var more;
      status, more := store.Split(ring[i], point);
      UnfoldsDerived(old(store.mem), ring, i, store.mem, more);
      UnfoldsStream(old(store.mem), ring, i, store.mem, more);
      ring := Grown(ring, i, more);
    }

    /** Split bucket i at `left` bytes, where the walk has passed all but `left` of the bytes asked for. */
    method CutWithin(i: nat, left: nat, ghost m0: Memory, ghost ids0: seq<Id>, ghost point: nat)
      requires Valid() && IdsOk(m0) && i < |ring| && left <= point
      requires Walk(m0, ids0, store.mem, ring, i, point - left)
      requires CanSplit(store.mem.buckets[ring[i]], left)
      modifies this`ring, store`mem
      ensures Valid() && Derived(m0, ids0, store.mem, ring)
      ensures CutAt(m0, ids0, store.mem, ring, i + 1, point) && Bytes() == Stream(m0, ids0)
    {
      LengthIs(store.mem, ring[i]);
      var status := SplitAt(i, left);
      WalkChanges(m0, ids0, old(store.mem), old(ring), i, point - left, store.mem, ring);
      WalkMoves(m0, ids0, store.mem, ring, i, point - left);
      WalkCuts(m0, ids0, store.mem, ring, i + 1, point);
    }

    /** Read bucket i on a walk. Either the ring stays as long as it is or some bytes were read. */
    method ReadOnWalk(i: nat, ghost m0: Memory, ghost ids0: seq<Id>, ghost done: int) returns (status: Status, len: nat)
      requires Valid() && IdsOk(m0) && i < |ring| && Walk(m0, ids0, store.mem, ring, i, done)
      modifies this`ring, store
      ensures Valid() && i < |ring| && Walk(m0, ids0, store.mem, ring, i, done)
      ensures Stream(store.mem, ring[i..]) == Stream(old(store.mem), old(ring)[i..])
      ensures status == Success || status == IoError
      ensures store.failed == old(store.failed) + Failures(status)
      ensures status == IoError ==>
        store.mem == old(store.mem) && ring == old(ring) && Fallible(store.mem.buckets[ring[i]])
      ensures status == Success ==> !Fallible(store.mem.buckets[ring[i]])
      ensures status == Success ==> len == Length(store.mem.buckets[ring[i]]) == |Content(store.mem, ring[i])|
      ensures |ring| == |old(ring)| || (status == Success && len > 0)
      ensures old(store.mem.buckets[ring[i]]).Pipe? ==> len <= BUFF_SIZE
      ensures old(NoPipe(store.mem, ring, i)) ==> NoPipe(store.mem, ring, i)
    {
      var str;
      ghost var added;
      status, str, added := ReadAt(i);
      if NoPipe(old(store.mem), old(ring), i) {
        NoPipeStays(old(store.mem), old(ring), i, store.mem, added);
      }
      len := |str|;
      WalkChanges(m0, ids0, old(store.mem), old(ring), i, done, store.mem, ring);
      if status == Success {
        LengthIs(store.mem, ring[i]);
      }
    }

    /**
      The first part of the loop of `apr_brigade_partition`: either it ends the walk, at bucket i or
      after it, or bucket i has a known length of at most `left` bytes.
     */
    method TryCut(i: nat, left: nat, sizeMax: nat, ghost m0: Memory, ghost ids0: seq<Id>, ghost point: nat)
      returns (ends: bool, status: Status, length: nat)
      requires Valid() && IdsOk(m0) && i < |ring| && 0 < left <= point && BUFF_SIZE <= sizeMax
      requires Walk(m0, ids0, store.mem, ring, i, point - left)
      modifies this`ring, store
      ensures Valid() && i < |ring| && Derived(m0, ids0, store.mem, ring)
      ensures Bytes() == Stream(m0, ids0)
      ensures ends ==> status == Success || status == IoError
      ensures !ends ==> status == Success
      ensures store.failed == old(store.failed) + Failures(status)
      ensures ends && status == Success ==> CutAt(m0, ids0, store.mem, ring, i + 1, point)
      ensures ends && status == IoError ==> store.mem.buckets[ring[i]].Pipe?
      ensures !ends ==> length <= left && length == |Content(store.mem, ring[i])|
      ensures !ends ==> Walk(m0, ids0, store.mem, ring, i, point - left)
      ensures !ends ==> Stream(store.mem, ring[i..]) == Stream(old(store.mem), old(ring)[i..])
      ensures !ends ==> |ring| == |old(ring)| || length > 0
    {
      var b := store.mem.buckets[ring[i]];
      ends, status := false, Success;
      if b.Pipe? && left > sizeMax {
        // too far out to split this bucket: fix its size and keep going
        status, length := ReadOnWalk(i, m0, ids0, point - left);
        ends := status != Success;
      } else if b.Pipe? {
        // a pipe cannot be split; reading turns it into something that can
        status, length := ReadOnWalk(i, m0, ids0, point - left);
        ends := status != Success || left < length;
      } else {
        length := Length(b);
        LengthIs(store.mem, ring[i]);
        ends := left < length;
      }
      if ends && status == Success {
        CutWithin(i, left, m0, ids0, point);
      }
    }

    /** `apr_brigade_partition`; `after` is the index of the bucket after the point. */
    method Partition(point: int, sizeMax: nat) returns (status: Status, after: nat)
      requires Valid() && BUFF_SIZE <= sizeMax
      modifies this`ring, store
      ensures Valid() && Derived(old(store.mem), old(ring), store.mem, ring)
      ensures Bytes() == old(Bytes())
      ensures status == Invalid <==> point < 0
      ensures status == Success ==> CutAt(old(store.mem), old(ring), store.mem, ring, after, point)
      ensures status == Incomplete ==> |Bytes()| < point && after == |ring|
      ensures status == IoError ==> after < |ring| && store.mem.buckets[ring[after]].Pipe?
      ensures status != NotImplemented
      ensures store.failed == old(store.failed) + Failures(status)
      ensures store.failed == old(store.failed) ==> (status == Success <==> 0 <= point <= |Bytes()|)
    {
      if point > 0 {
        status, after := WalkToPoint(point, sizeMax);
        return;
      }
      ghost var m0, ids0 := store.mem, ring;
      WalkStarts(m0, ids0);
      if point < 0 {
        return Invalid, 0;
      }
      WalkCuts(m0, ids0, m0, ids0, 0, 0);
      return Success, 0;
    }

    /** The walk of `apr_brigade_partition` for a point behind the first byte. */
    method WalkToPoint(point: nat, sizeMax: nat) returns (status: Status, after: nat)
      requires Valid() && BUFF_SIZE <= sizeMax && point > 0
      modifies this`ring, store
      ensures Valid() && Derived(old(store.mem), old(ring), store.mem, ring) && Bytes() == old(Bytes())
      ensures status == Success ==> CutAt(old(store.mem), old(ring), store.mem, ring, after, point)
      ensures status == Incomplete ==> |Bytes()| < point && after == |ring|
      ensures status == IoError ==> after < |ring| && store.mem.buckets[ring[after]].Pipe?
      ensures status != NotImplemented && status != Invalid
      ensures store.failed == old(store.failed) + Failures(status)
    {
      ghost var m0, ids0 := store.mem, ring;
      WalkStarts(m0, ids0);
      var left: nat := point;
      var i := 0;
      while i < |ring|
        invariant Valid() && i <= |ring| && 0 < left <= point && store.failed == old(store.failed)
        invariant Walk(m0, ids0, store.mem, ring, i, point - left)
        decreases |Stream(store.mem, ring[i..])|, |ring| - i
      {
        var ends;
        ends, status, after, left := PassBucket(i, left, sizeMax, m0, ids0, point);
        if ends {
          return;
        }
        i := i + 1;
      }
      assert ring[..i] == ring;
      return Incomplete, |ring|;
    }

    /** One round of the walk: it ends at this bucket, or the bucket lies before the point. */
    method PassBucket(i: nat, left: nat, sizeMax: nat, ghost m0: Memory, ghost ids0: seq<Id>, ghost point: nat)
      returns (ends: bool, status: Status, after: nat, left': nat)
      requires Valid()
      requires BUFF_SIZE <= sizeMax
      requires i < |ring|
      requires 0 < left <= point
      requires IdsOk(m0)
      requires Walk(m0, ids0, store.mem, ring, i, point - left)
      modifies this`ring, store
      ensures Valid() && Derived(m0, ids0, store.mem, ring) && Bytes() == Stream(m0, ids0)
      ensures ends ==> status == Success || status == IoError
      ensures !ends ==> status == Success
      ensures store.failed == old(store.failed) + Failures(status)
      ensures ends && status == Success ==> CutAt(m0, ids0, store.mem, ring, after, point)
      ensures ends && status == IoError ==> after < |ring| && store.mem.buckets[ring[after]].Pipe?
      ensures !ends ==> i < |ring| && 0 < left' < left + 1 && Walk(m0, ids0, store.mem, ring, i + 1, point - left')
      ensures !ends ==> |Stream(store.mem, ring[i + 1..])| <= |old(Stream(store.mem, ring[i..]))|
      ensures !ends && |Stream(store.mem, ring[i + 1..])| == |old(Stream(store.mem, ring[i..]))| ==>
        |ring| <= |old(ring)|
    {
      var length;
      ends, status, length := TryCut(i, left, sizeMax, m0, ids0, point);
      after, left' := if status == Success then i + 1 else i, left;
      if ends {
        return;
      }
      WalkMoves(m0, ids0, store.mem, ring, i, point - left);
      if left == length {
        WalkCuts(m0, ids0, store.mem, ring, i + 1, point);
        return true, Success, i + 1, left;
      }
      left' := left - length;
    }

    // ----- Writing

    method InsertNew(str: seq<byte>, transient: bool)
      requires Valid()
      modifies this`ring, store`mem
      ensures Valid() && Derived(old(store.mem), old(ring), store.mem, ring)
      ensures Bytes() == old(Bytes()) + str
    {
      var id := store.NewBucket(str, transient);
      TailAdded(old(store.mem), ring, store.mem, id);
      ring := ring + [id];
    }

    method InsertBuffer()
      requires Valid()
      modifies this`ring, store`mem
      ensures Valid() && Derived(old(store.mem), old(ring), store.mem, ring)
      ensures Bytes() == old(Bytes())
      ensures ring != [] && ring[..|ring| - 1] == old(ring)
      ensures Writable(store.mem, ring[|ring| - 1]) && Room(store.mem, ring[|ring| - 1]) == BUFF_SIZE
    {
      var id := store.NewBuffer();
      TailAdded(old(store.mem), ring, store.mem, id);
      ring := ring + [id];
    }

    method ExtendLast(data: seq<byte>)
      requires Valid() && ring != [] && Writable(store.mem, ring[|ring| - 1])
      requires |data| <= Room(store.mem, ring[|ring| - 1])
      modifies store`mem
      ensures Valid() && Derived(old(store.mem), old(ring), store.mem, ring)
      ensures Bytes() == old(Bytes()) + data
      ensures Writable(store.mem, ring[|ring| - 1])
      ensures Room(store.mem, ring[|ring| - 1]) == old(Room(store.mem, ring[|ring| - 1])) - |data|
    {
      var last := ring[|ring| - 1];
      ExtendDerives(store.mem, ring, last, data);
      AppendRoom(store.mem, last, data);
      store.Extend(last, data);
    }

    /** `apr_bucket_delete` of the first bucket. */
    method DeleteFirst()
      requires Valid() && ring != []
      modifies this`ring, store`mem
      ensures Valid() && Derived(old(store.mem), old(ring), store.mem, ring)
      ensures ring == old(ring)[1..] && old(ring)[0] !in store.mem.buckets
      ensures Evolves(old(store.mem), store.mem, {old(ring)[0]})
      ensures old(Bytes()) == Content(old(store.mem), old(ring)[0]) + Bytes()
    {
      store.Free(ring[0]);
      HeadRemoved(old(store.mem), ring, store.mem);
      ring := ring[1..];
    }
  }
}
