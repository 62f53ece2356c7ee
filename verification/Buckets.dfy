/**
  Buckets and the blocks they share (apr-util/buckets), as values: what a state means and
  what keeps it sound.

  Pointers are identifiers. A bucket refers to memory it does not own (`Simple`), to a
  reference-counted block (`Shared`), to a pipe, or to nothing (`Meta`: EOS, FLUSH).
  A brigade is the sequence of identifiers in its ring.
 */
module Buckets {
  import opened Bytes

  type Id = nat

  const BUFF_SIZE := 8000 // APR_BUCKET_BUFF_SIZE

  datatype Kind = HeapKind | PoolKind | FileKind

  datatype Bucket =
    | Simple(transient: bool, buf: seq<byte>, start: nat, length: nat)
    | Shared(kind: Kind, blk: Id, start: nat, length: nat)
    | Pipe(pipe: Id)
    | Meta

  /**
    Where a block keeps its bytes. A pool block is `InPool` until its pool is cleaned up and
    `OnHeap` from then on; `|base|` is `alloc_len`.
   */
  datatype Storage = OnHeap(base: seq<byte>) | InPool(base: seq<byte>) | OnFile(file: Id)

  datatype Block = Block(refcount: int, storage: Storage)

  datatype Memory = Memory(
    buckets: map<Id, Bucket>,
    blocks: map<Id, Block>,
    pipes: map<Id, seq<byte>>,   // what is still to come out of each pipe
    files: map<Id, seq<byte>>,
    released: seq<Id>,           // blocks given back, in order
    next: Id)                    // identifiers from here on are unused

  // ----- What a bucket and a brigade denote

  function StorageBytes(m: Memory, storage: Storage): seq<byte> {
    match storage
    case OnHeap(base) => base
    case InPool(base) => base
    case OnFile(f) => if f in m.files then m.files[f] else []
  }

  function Base(m: Memory, k: Id): seq<byte> {
    if k in m.blocks then StorageBytes(m, m.blocks[k].storage) else []
  }

  function BytesOf(m: Memory, b: Bucket): seq<byte> {
    match b
    case Simple(_, buf, start, length) => Slice(buf, start, length)
    case Shared(_, k, start, length) => Slice(Base(m, k), start, length)
    case Pipe(p) => if p in m.pipes then m.pipes[p] else []
    case Meta => []
  }

  function Content(m: Memory, id: Id): seq<byte> {
    if id in m.buckets then BytesOf(m, m.buckets[id]) else []
  }

  /** The byte stream of a brigade. */
  function Stream(m: Memory, ids: seq<Id>): seq<byte> {
    if ids == [] then [] else Content(m, ids[0]) + Stream(m, ids[1..])
  }

  // ----- Soundness of a state

  predicate Reaches(b: Bucket, k: Id) {
    b.Shared? && b.blk == k
  }

  function Sharers(buckets: map<Id, Bucket>, k: Id): set<Id> {
    set id | id in buckets && Reaches(buckets[id], k)
  }

  predicate Fits(kind: Kind, storage: Storage) {
    match kind
    case HeapKind => storage.OnHeap?
    case PoolKind => !storage.OnFile?
    case FileKind => storage.OnFile?
  }

  predicate BucketOk(m: Memory, b: Bucket) {
    match b
    case Simple(_, buf, start, length) => start + length <= |buf|
    case Shared(kind, k, start, length) =>
      k in m.blocks && start + length <= |Base(m, k)| && Fits(kind, m.blocks[k].storage)
    case Pipe(p) => p in m.pipes
    case Meta => true
  }

  ghost predicate BucketsOk(m: Memory) {
    forall id :: id in m.buckets ==> BucketOk(m, m.buckets[id])
  }

  /** The reference count of every block is the number of live buckets that refer to it, and that is not zero. */
  ghost predicate CountsOk(m: Memory) {
    forall k :: k in m.blocks ==> m.blocks[k].refcount == |Sharers(m.buckets, k)| > 0
  }

  /** A pipe is read through one bucket only. */
  ghost predicate PipesOk(m: Memory) {
    forall a, b ::
      (a in m.buckets && b in m.buckets && m.buckets[a].Pipe? && m.buckets[b] == m.buckets[a]) ==> a == b
  }

  /** A block is given back once, and is then no longer there. */
  ghost predicate ReleasedOk(m: Memory) {
    && (forall i, j :: 0 <= i < j < |m.released| ==> m.released[i] != m.released[j])
    && (forall i :: 0 <= i < |m.released| ==> m.released[i] !in m.blocks && m.released[i] < m.next)
  }

  ghost predicate IdsOk(m: Memory) {
    && (forall id :: id in m.buckets ==> id < m.next)
    && (forall k :: k in m.blocks ==> k < m.next)
  }

  ghost predicate Inv(m: Memory) {
    IdsOk(m) && BucketsOk(m) && CountsOk(m) && PipesOk(m) && ReleasedOk(m)
  }

  // ----- Framing: what a change leaves alone

  ghost predicate Keeps(m: Memory, m': Memory, id: Id) {
    && id in m.buckets && id in m'.buckets
    && m'.buckets[id] == m.buckets[id]
    && Content(m', id) == Content(m, id)
  }

  /** Every bucket outside `touched` is as it was and denotes the same bytes; other buckets of m' are new. */
  ghost predicate Evolves(m: Memory, m': Memory, touched: set<Id>) {
    && m.next <= m'.next
    && m'.files == m.files
    && (forall x :: x in m.buckets && x !in touched ==> Keeps(m, m', x))
    && (forall x :: x in m'.buckets ==> x in m.buckets || m.next <= x)
  }

  lemma {:induction false} EvolvesTrans(m: Memory, m1: Memory, m2: Memory, t1: set<Id>, t2: set<Id>, t: set<Id>)
    requires IdsOk(m)
    requires Evolves(m, m1, t1) && Evolves(m1, m2, t2)
    requires t1 <= t && forall x :: x in t2 ==> x in t || m.next <= x
    ensures Evolves(m, m2, t)
  {
    forall x | x in m.buckets && x !in t ensures Keeps(m, m2, x) {
      assert Keeps(m, m1, x);
      assert Keeps(m1, m2, x);
    }
  }

  // ----- Streams

  lemma {:induction false} StreamConcat(m: Memory, a: seq<Id>, b: seq<Id>)
    ensures Stream(m, a + b) == Stream(m, a) + Stream(m, b)
  {
    if a == [] {
      assert a + b == b;
    } else {
      assert (a + b)[1..] == a[1..] + b;
      StreamConcat(m, a[1..], b);
    }
  }

  lemma {:induction false} StreamFrame(m: Memory, m': Memory, ids: seq<Id>)
    requires forall i :: 0 <= i < |ids| ==> Content(m', ids[i]) == Content(m, ids[i])
    ensures Stream(m', ids) == Stream(m, ids)
  {
    if ids != [] {
      StreamFrame(m, m', ids[1..]);
    }
  }

  lemma {:induction false} StreamOne(m: Memory, id: Id)
    ensures Stream(m, [id]) == Content(m, id)
  {
    assert Stream(m, [id][1..]) == [];
  }

  lemma {:induction false} StreamSplit(m: Memory, ids: seq<Id>, i: nat)
    requires i <= |ids|
    ensures Stream(m, ids) == Stream(m, ids[..i]) + Stream(m, ids[i..])
  {
    assert ids == ids[..i] + ids[i..];
    StreamConcat(m, ids[..i], ids[i..]);
  }

  lemma {:induction false} StreamAt(m: Memory, ids: seq<Id>, i: nat)
    requires i < |ids|
    ensures Stream(m, ids[i..]) == Content(m, ids[i]) + Stream(m, ids[i + 1..])
    ensures Stream(m, ids[..i + 1]) == Stream(m, ids[..i]) + Content(m, ids[i])
  {
    assert ids[i..][1..] == ids[i + 1..];
    assert ids[..i + 1] == ids[..i] + [ids[i]];
    StreamConcat(m, ids[..i], [ids[i]]);
    StreamOne(m, ids[i]);
  }

  // ----- Counting sharers

  lemma {:induction false} CardStep(a: set<Id>, b: set<Id>, id: Id)
    requires a - {id} == b - {id}
    ensures |b| - (if id in b then 1 else 0) == |a| - (if id in a then 1 else 0)
  {
    var rest := a - {id};
    if id in a {
      assert a == rest + {id};
    } else {
      assert a == rest;
    }
    if id in b {
      assert b == rest + {id};
    } else {
      assert b == rest;
    }
  }

  /** Whether bucket id refers to block k, as a number. */
  function Refers(buckets: map<Id, Bucket>, id: Id, k: Id): nat {
    if id in buckets && Reaches(buckets[id], k) then 1 else 0
  }

  ghost predicate SameBut(before: map<Id, Bucket>, after: map<Id, Bucket>, a: Id, b: Id) {
    && (forall x :: x in before && x != a && x != b ==> x in after && after[x] == before[x])
    && (forall x :: x in after && x != a && x != b ==> x in before)
  }

  lemma {:induction false} SharersStep(before: map<Id, Bucket>, after: map<Id, Bucket>, id: Id, k: Id)
    requires SameBut(before, after, id, id)
    ensures |Sharers(after, k)| == |Sharers(before, k)| - Refers(before, id, k) + Refers(after, id, k)
  {
    CardStep(Sharers(before, k), Sharers(after, k), id);
  }

  /** Changing two buckets changes the sharers of a block by those buckets at most. */
  lemma {:induction false} SharersStep2(before: map<Id, Bucket>, after: map<Id, Bucket>, a: Id, b: Id, k: Id)
    requires a != b && SameBut(before, after, a, b)
    ensures |Sharers(after, k)| == |Sharers(before, k)| - Refers(before, a, k) - Refers(before, b, k)
                                   + Refers(after, a, k) + Refers(after, b, k)
  {
    var mid := if a in after then before[a := after[a]] else before - {a};
    SharersStep(before, mid, a, k);
    SharersStep(mid, after, b, k);
  }

  lemma {:induction false} SoleSharer(m: Memory, id: Id, k: Id, x: Id)
    requires CountsOk(m) && k in m.blocks && m.blocks[k].refcount == 1
    requires id in Sharers(m.buckets, k) && x in Sharers(m.buckets, k)
    ensures x == id
  {
    var rest := Sharers(m.buckets, k) - {id};
    assert |rest| == 0;
    assert x !in rest;
  }
}
