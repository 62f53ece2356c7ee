/**
  The steps bucket code is made of, on values, and what each of them keeps and changes:
  apr_buckets_refcount.c, apr_buckets_simple.c, apr_buckets_heap.c, apr_buckets_pool.c,
  apr_buckets_pipe.c and apr_buckets_file.c of apr-util/buckets.
 */
module BucketSteps {
  import opened Bytes
  import opened Buckets

  function Length(b: Bucket): nat
    requires !b.Pipe?
  {
    if b.Meta? then 0 else b.length
  }

  lemma {:induction false} LengthIs(m: Memory, id: Id)
    requires id in m.buckets && BucketOk(m, m.buckets[id]) && !m.buckets[id].Pipe?
    ensures |Content(m, id)| == Length(m.buckets[id])
  {
  }

  /** A bucket whose read may fail, because it has to ask the system for its bytes. */
  predicate Fallible(b: Bucket) {
    b.Pipe? || (b.Shared? && b.kind == FileKind)
  }

  // ----- Reference counts

  /** One more bucket refers to the block. */
  function Addref(blocks: map<Id, Block>, k: Id): map<Id, Block>
    requires k in blocks
  {
    blocks[k := blocks[k].(refcount := blocks[k].refcount + 1)]
  }

  /** `apr_bucket_shared_destroy`, and its callers giving the block back when the count is zero. */
  function Unref(m: Memory, k: Id): Memory
    requires k in m.blocks
  {
    var count := m.blocks[k].refcount - 1;
    if count == 0 then m.(blocks := m.blocks - {k}, released := m.released + [k])
    else m.(blocks := m.blocks[k := m.blocks[k].(refcount := count)])
  }

  // ----- Bucket operations

  /** `apr_bucket_*_create` of a bucket that shares nothing. */
  function Create(m: Memory, b: Bucket): Memory {
    m.(buckets := m.buckets[m.next := b], next := m.next + 1)
  }

  /** `apr_bucket_heap_create`, `_pool_create`, `_file_create`: a bucket and its block, with one reference. */
  function CreateShared(m: Memory, kind: Kind, storage: Storage, start: nat, length: nat): Memory {
    m.(buckets := m.buckets[m.next + 1 := Shared(kind, m.next, start, length)],
       blocks := m.blocks[m.next := Block(1, storage)],
       next := m.next + 2)
  }

  /** `apr_bucket_copy`; false when the type does not implement it. */
  predicate CanCopy(b: Bucket) { !b.Pipe? }

  function Copy(m: Memory, id: Id): Memory
    requires id in m.buckets && BucketOk(m, m.buckets[id])
  {
    var b := m.buckets[id];
    var m1 := Create(m, b);
    if b.Shared? then m1.(blocks := Addref(m.blocks, b.blk)) else m1
  }

  /** `apr_bucket_split` at a point within the bucket; the second half is the new bucket `m.next`. */
  predicate CanSplit(b: Bucket, point: nat) { (b.Simple? || b.Shared?) && point <= b.length }

  function FirstPart(b: Bucket, point: nat): Bucket
    requires CanSplit(b, point)
  {
    match b
    case Simple(t, buf, start, length) => Simple(t, buf, start, point)
    case Shared(kind, k, start, length) => Shared(kind, k, start, point)
  }

  function SecondPart(b: Bucket, point: nat): Bucket
    requires CanSplit(b, point)
  {
    match b
    case Simple(t, buf, start, length) => Simple(t, buf, start + point, length - point)
    case Shared(kind, k, start, length) => Shared(kind, k, start + point, length - point)
  }

  function Split(m: Memory, id: Id, point: nat): Memory
    requires id in m.buckets && BucketOk(m, m.buckets[id]) && CanSplit(m.buckets[id], point)
  {
    var b := m.buckets[id];
    var m1 := m.(
      buckets := m.buckets[id := FirstPart(b, point)][m.next := SecondPart(b, point)],
      next := m.next + 1);
    if b.Shared? then m1.(blocks := Addref(m.blocks, b.blk)) else m1
  }

  /** `apr_bucket_destroy`. */
  function Destroy(m: Memory, id: Id): Memory
    requires id in m.buckets && BucketOk(m, m.buckets[id])
  {
    var b := m.buckets[id];
    var m1 := m.(buckets := m.buckets - {id});
    if b.Shared? then Unref(m1, b.blk) else m1
  }

  /** `pool_bucket_cleanup`: the block moves to the heap, its buckets notice later. */
  function CleanPool(m: Memory, k: Id): Memory
    requires k in m.blocks && m.blocks[k].storage.InPool?
  {
    m.(blocks := m.blocks[k := m.blocks[k].(storage := OnHeap(m.blocks[k].storage.base))])
  }

  /** `pool_bucket_read` once the pool is gone: the bucket becomes a heap bucket. */
  function ReadPool(m: Memory, id: Id): Memory
    requires id in m.buckets && BucketOk(m, m.buckets[id])
  {
    var b := m.buckets[id];
    if b.Shared? && b.kind == PoolKind && m.blocks[b.blk].storage.OnHeap?
    then m.(buckets := m.buckets[id := b.(kind := HeapKind)]) else m
  }

  function Overwrite(buf: seq<byte>, at: nat, data: seq<byte>): (r: seq<byte>)
    requires at + |data| <= |buf|
    ensures |r| == |buf| && r[..at] == buf[..at] && r[at..at + |data|] == data
    ensures r[at + |data|..] == buf[at + |data|..]
  {
    buf[..at] + data + buf[at + |data|..]
  }

  /**
    `pipe_bucket_read` when `apr_file_read` delivers n bytes into the buffer `buf`: the bucket
    becomes a heap bucket and a new pipe bucket, `m.next + 1`, stands for the rest.
   */
  function ReadPipe(m: Memory, id: Id, n: nat, buf: seq<byte>): Memory
    requires id in m.buckets && m.buckets[id].Pipe? && BucketOk(m, m.buckets[id])
    requires n <= |m.pipes[m.buckets[id].pipe]| && n <= |buf|
  {
    var p := m.buckets[id].pipe;
    if n > 0 then
      m.(buckets := m.buckets[id := Shared(HeapKind, m.next, 0, n)][m.next + 1 := Pipe(p)],
         blocks := m.blocks[m.next := Block(1, OnHeap(Overwrite(buf, 0, m.pipes[p][..n])))],
         pipes := m.pipes[p := m.pipes[p][n..]],
         next := m.next + 2)
    else m.(buckets := m.buckets[id := Simple(false, [], 0, 0)])
  }

  /**
    `file_bucket_read` when `apr_file_read` delivers n bytes: the bucket becomes a heap bucket.
    The reference to the file block goes to a new file bucket for the rest, `m.next + 1`, if there
    is a rest, and is dropped otherwise.
   */
  function ReadFile(m: Memory, id: Id, n: nat): Memory
    requires id in m.buckets && BucketOk(m, m.buckets[id])
    requires m.buckets[id].Shared? && m.buckets[id].kind == FileKind && n <= m.buckets[id].length
  {
    var b := m.buckets[id];
    var m1 := m.(
      buckets := m.buckets[id := Shared(HeapKind, m.next, 0, n)],
      blocks := m.blocks[m.next := Block(1, OnHeap(Slice(Base(m, b.blk), b.start, n)))],
      next := m.next + 2);
    if b.length - n > 0 then
      m1.(buckets := m1.buckets[m.next + 1 := SecondPart(b, n)])
    else Unref(m1, b.blk)
  }

  /** The append in place of `apr_brigade_write` and `apr_brigade_writev`. */
  predicate Writable(m: Memory, id: Id) {
    && id in m.buckets && m.buckets[id].Shared? && m.buckets[id].kind == HeapKind
    && m.buckets[id].blk in m.blocks && m.blocks[m.buckets[id].blk].refcount == 1
  }

  function Room(m: Memory, id: Id): int
    requires Writable(m, id)
  {
    |Base(m, m.buckets[id].blk)| - (m.buckets[id].length + m.buckets[id].start)
  }

  function Append(m: Memory, id: Id, data: seq<byte>): Memory
    requires Writable(m, id) && BucketOk(m, m.buckets[id]) && |data| <= Room(m, id)
  {
    var b := m.buckets[id];
    m.(buckets := m.buckets[id := b.(length := b.length + |data|)],
       blocks := m.blocks[b.blk := m.blocks[b.blk].(
         storage := OnHeap(Overwrite(Base(m, b.blk), b.start + b.length, data)))])
  }

  // ----- Each of them is sound, and changes only what it says

  /** A bucket of m' that may have been written: well formed, and either an old or a new identifier. */
  ghost predicate Placed(m: Memory, m': Memory, id: Id) {
    id in m'.buckets ==>
      id < m'.next && (id in m.buckets || m.next <= id) && BucketOk(m', m'.buckets[id])
  }

  ghost predicate Unmoved(m: Memory, m': Memory, b: Bucket) {
    BucketOk(m', b) && BytesOf(m', b) == BytesOf(m, b)
  }

  /** Buckets a and b may differ, all others are the same and denote the same bytes. */
  ghost predicate OnlyTouches(m: Memory, m': Memory, a: Id, b: Id) {
    && a != b && SameBut(m.buckets, m'.buckets, a, b)
    && m.next <= m'.next && m'.files == m.files
    && Placed(m, m', a) && Placed(m, m', b)
    && (forall x :: x in m.buckets && x != a && x != b ==> Unmoved(m, m', m.buckets[x]))
  }

  /** The change of a block's reference count is that of the references from buckets a and b. */
  ghost predicate CountMoves(m: Memory, m': Memory, a: Id, b: Id, k: Id)
    requires k in m'.blocks
  {
    && 0 < m'.blocks[k].refcount && k < m'.next
    && (k in m.blocks || m.next <= k)
    && m'.blocks[k].refcount - Refers(m'.buckets, a, k) - Refers(m'.buckets, b, k)
       == if k in m.blocks then m.blocks[k].refcount - Refers(m.buckets, a, k) - Refers(m.buckets, b, k) else 0
  }

  ghost predicate CountsMove(m: Memory, m': Memory, a: Id, b: Id) {
    forall k :: k in m'.blocks ==> CountMoves(m, m', a, b, k)
  }

  /** Only one of a and b may hold a pipe, and only one that a held before or that nobody held. */
  ghost predicate PipesMove(m: Memory, m': Memory, a: Id, b: Id) {
    && !(a in m'.buckets && m'.buckets[a].Pipe?)
    && (b in m'.buckets && m'.buckets[b].Pipe? ==>
          forall x :: x in m.buckets && x != a && x != b ==> m.buckets[x] != m'.buckets[b])
  }

  ghost predicate ReleasesAtMost(m: Memory, m': Memory) {
    && (forall k :: k in m'.blocks ==> k in m.blocks || m.next <= k)
    && (|| m'.released == m.released
        || exists k :: k in m.blocks && k !in m'.blocks && m'.released == m.released + [k])
  }

  lemma {:induction false} CountsAfter(m: Memory, m': Memory, a: Id, b: Id)
    requires IdsOk(m) && BucketsOk(m) && CountsOk(m)
    requires a != b && SameBut(m.buckets, m'.buckets, a, b) && CountsMove(m, m', a, b)
    ensures CountsOk(m')
  {
    forall k | k in m'.blocks ensures m'.blocks[k].refcount == |Sharers(m'.buckets, k)| > 0 {
      SharersStep2(m.buckets, m'.buckets, a, b, k);
      assert CountMoves(m, m', a, b, k);
      if k !in m.blocks {
        assert Sharers(m.buckets, k) == {};
      }
    }
  }

  lemma {:induction false} BucketsAfter(m: Memory, m': Memory, a: Id, b: Id)
    requires IdsOk(m) && OnlyTouches(m, m', a, b)
    ensures BucketsOk(m') && (forall id :: id in m'.buckets ==> id < m'.next)
    ensures Evolves(m, m', {a, b})
  {
    forall x | x in m.buckets && x !in {a, b} ensures Keeps(m, m', x) {
      assert Unmoved(m, m', m.buckets[x]);
    }
    forall x | x in m'.buckets ensures BucketOk(m', m'.buckets[x]) {
      assert x != a && x != b ==> x in m.buckets && Unmoved(m, m', m.buckets[x]);
    }
  }

  lemma {:induction false} PipesAfter(m: Memory, m': Memory, a: Id, b: Id)
    requires PipesOk(m) && SameBut(m.buckets, m'.buckets, a, b) && PipesMove(m, m', a, b)
    ensures PipesOk(m')
  {
  }

  lemma {:induction false} ReleasedAfter(m: Memory, m': Memory)
    requires IdsOk(m) && ReleasedOk(m) && ReleasesAtMost(m, m') && m.next <= m'.next
    ensures ReleasedOk(m')
  {
  }

  /** What any of the steps has to show. */
  lemma {:induction false} StepSound(m: Memory, m': Memory, a: Id, b: Id)
    requires Inv(m)
    requires OnlyTouches(m, m', a, b) && CountsMove(m, m', a, b)
    requires PipesMove(m, m', a, b) && ReleasesAtMost(m, m')
    ensures Inv(m') && Evolves(m, m', {a, b})
  {
    BucketsAfter(m, m', a, b);
    CountsAfter(m, m', a, b);
    PipesAfter(m, m', a, b);
    ReleasedAfter(m, m');
    assert forall k :: k in m'.blocks ==> CountMoves(m, m', a, b, k);
  }

  ghost predicate PipeFree(m: Memory, b: Bucket) {
    b.Pipe? ==> forall id :: id in m.buckets ==> m.buckets[id] != b
  }

  /** The part of the invariant that does not speak of sharers. */
  ghost predicate Plain(m: Memory) {
    IdsOk(m) && BucketsOk(m) && forall k :: k in m.blocks ==> m.blocks[k].refcount > 0
  }

  /** One step: what StepSound asks for. */
  ghost predicate Step(m: Memory, m': Memory, a: Id, b: Id) {
    && OnlyTouches(m, m', a, b) && CountsMove(m, m', a, b)
    && PipesMove(m, m', a, b) && ReleasesAtMost(m, m')
  }

  lemma {:induction false} CreateStep(m: Memory, b: Bucket)
    requires Plain(m) && BucketOk(m, b) && !b.Shared? && PipeFree(m, b)
    ensures Step(m, Create(m, b), m.next + 1, m.next)
    ensures Content(Create(m, b), m.next) == BytesOf(m, b)
  {
  }

  ghost predicate Suits(m: Memory, kind: Kind, storage: Storage, start: nat, length: nat) {
    && Fits(kind, storage)
    && (storage.OnFile? ==> storage.file in m.files)
    && start + length <= |StorageBytes(m, storage)|
  }

  lemma {:induction false} CreateSharedStep(m: Memory, kind: Kind, storage: Storage, start: nat, length: nat)
    requires Plain(m) && Suits(m, kind, storage, start, length)
    ensures Step(m, CreateShared(m, kind, storage, start, length), m.next + 1, m.next + 2)
    ensures Content(CreateShared(m, kind, storage, start, length), m.next + 1)
         == Slice(StorageBytes(m, storage), start, length)
  {
  }

  /** A bucket whose block, if any, keeps its storage is not moved. */
  lemma {:induction false} StorageUnmoved(m: Memory, m': Memory, b: Bucket)
    requires BucketOk(m, b) && m'.files == m.files && m'.pipes == m.pipes
    requires b.Shared? ==> b.blk in m'.blocks && m'.blocks[b.blk].storage == m.blocks[b.blk].storage
    ensures Unmoved(m, m', b)
  {
  }

  lemma {:induction false} PipeUnmoved(m: Memory, m': Memory, b: Bucket, p: Id)
    requires BucketOk(m, b) && m'.files == m.files && p in m.pipes && b != Pipe(p)
    requires m'.pipes == m.pipes[p := if p in m'.pipes then m'.pipes[p] else []]
    requires b.Shared? ==> b.blk in m'.blocks && m'.blocks[b.blk].storage == m.blocks[b.blk].storage
    ensures Unmoved(m, m', b)
  {
  }

  lemma {:induction false} SliceSplit(s: seq<byte>, start: nat, length: nat, point: nat)
    requires point <= length && start + length <= |s|
    ensures Slice(s, start, length)[..point] == Slice(s, start, point)
    ensures Slice(s, start, length)[point..] == Slice(s, start + point, length - point)
  {
  }

  lemma {:induction false} CopyStep(m: Memory, id: Id)
    requires Plain(m) && id in m.buckets && CanCopy(m.buckets[id])
    ensures Step(m, Copy(m, id), m.next, m.next + 1)
    ensures Content(Copy(m, id), m.next) == Content(m, id)
  {
    var m' := Copy(m, id);
    forall x | x in m.buckets ensures Unmoved(m, m', m.buckets[x]) {
      StorageUnmoved(m, m', m.buckets[x]);
    }
  }

  lemma {:induction false} PartsDenote(m: Memory, b: Bucket, point: nat)
    requires BucketOk(m, b) && CanSplit(b, point)
    ensures BucketOk(m, FirstPart(b, point)) && BucketOk(m, SecondPart(b, point))
    ensures BytesOf(m, FirstPart(b, point)) == BytesOf(m, b)[..point]
    ensures BytesOf(m, SecondPart(b, point)) == BytesOf(m, b)[point..]
  {
    SliceSplit(if b.Shared? then Base(m, b.blk) else b.buf, b.start, b.length, point);
  }

  lemma {:induction false} SplitContent(m: Memory, id: Id, point: nat)
    requires Plain(m) && id in m.buckets && CanSplit(m.buckets[id], point)
    ensures OnlyTouches(m, Split(m, id, point), id, m.next)
    ensures Content(Split(m, id, point), id) == Content(m, id)[..point]
    ensures Content(Split(m, id, point), m.next) == Content(m, id)[point..]
  {
    var m' := Split(m, id, point);
    forall x | x in m.buckets ensures Unmoved(m, m', m.buckets[x]) {
      StorageUnmoved(m, m', m.buckets[x]);
    }
    PartsDenote(m', m.buckets[id], point);
  }

  lemma {:induction false} SplitCounts(m: Memory, id: Id, point: nat)
    requires Plain(m) && id in m.buckets && CanSplit(m.buckets[id], point)
    ensures CountsMove(m, Split(m, id, point), id, m.next)
    ensures PipesMove(m, Split(m, id, point), id, m.next)
    ensures ReleasesAtMost(m, Split(m, id, point))
  {
  }

  /** If the block of bucket id has one reference, no other bucket refers to it. */
  ghost predicate Alone(m: Memory, id: Id) {
    id in m.buckets && m.buckets[id].Shared? && m.buckets[id].blk in m.blocks
      && m.blocks[m.buckets[id].blk].refcount == 1 ==>
      forall x :: x in m.buckets && x != id ==> !Reaches(m.buckets[x], m.buckets[id].blk)
  }

  lemma {:induction false} CountTellsAlone(m: Memory, id: Id)
    requires CountsOk(m)
    ensures Alone(m, id)
  {
    if id in m.buckets && m.buckets[id].Shared? && m.buckets[id].blk in m.blocks
       && m.blocks[m.buckets[id].blk].refcount == 1 {
      var k := m.buckets[id].blk;
      forall x | x in m.buckets && x != id ensures !Reaches(m.buckets[x], k) {
        if Reaches(m.buckets[x], k) {
          SoleSharer(m, id, k, x);
        }
      }
    }
  }

  lemma {:induction false} DestroyContent(m: Memory, id: Id)
    requires Plain(m) && id in m.buckets && Alone(m, id)
    ensures OnlyTouches(m, Destroy(m, id), id, m.next)
  {
  }

  lemma {:induction false} DestroyCounts(m: Memory, id: Id)
    requires Plain(m) && id in m.buckets
    ensures CountsMove(m, Destroy(m, id), id, m.next)
    ensures PipesMove(m, Destroy(m, id), id, m.next) && ReleasesAtMost(m, Destroy(m, id))
  {
  }

  lemma {:induction false} CleanPoolStep(m: Memory, k: Id)
    requires Plain(m) && k in m.blocks && m.blocks[k].storage.InPool?
    ensures Step(m, CleanPool(m, k), m.next, m.next + 1)
  {
  }

  lemma {:induction false} ReadPoolStep(m: Memory, id: Id)
    requires Plain(m) && id in m.buckets && !m.buckets[id].Pipe?
    ensures Step(m, ReadPool(m, id), id, m.next)
    ensures Content(ReadPool(m, id), id) == Content(m, id)
  {
  }

  lemma {:induction false} ReadPipeContent(m: Memory, id: Id, n: nat, buf: seq<byte>)
    requires Plain(m) && PipesOk(m) && id in m.buckets && m.buckets[id].Pipe?
    requires n <= |Content(m, id)| && n <= |buf|
    requires n == 0 ==> Content(m, id) == []
    ensures OnlyTouches(m, ReadPipe(m, id, n, buf), id, m.next + 1)
    ensures Content(ReadPipe(m, id, n, buf), id) == Content(m, id)[..n]
    ensures Content(ReadPipe(m, id, n, buf), m.next + 1) == Content(m, id)[n..]
  {
    var m' := ReadPipe(m, id, n, buf);
    forall x | x in m.buckets && x != id ensures Unmoved(m, m', m.buckets[x]) {
      PipeUnmoved(m, m', m.buckets[x], m.buckets[id].pipe);
    }
  }

  lemma {:induction false} ReadPipeCounts(m: Memory, id: Id, n: nat, buf: seq<byte>)
    requires Plain(m) && PipesOk(m) && id in m.buckets && m.buckets[id].Pipe?
    requires n <= |Content(m, id)| && n <= |buf|
    ensures CountsMove(m, ReadPipe(m, id, n, buf), id, m.next + 1)
    ensures PipesMove(m, ReadPipe(m, id, n, buf), id, m.next + 1)
    ensures ReleasesAtMost(m, ReadPipe(m, id, n, buf))
  {
  }

  lemma {:induction false} ReadFileContent(m: Memory, id: Id, n: nat)
    requires Plain(m) && id in m.buckets && Alone(m, id)
    requires m.buckets[id].Shared? && m.buckets[id].kind == FileKind && n <= m.buckets[id].length
    ensures OnlyTouches(m, ReadFile(m, id, n), id, m.next + 1)
    ensures Content(ReadFile(m, id, n), id) == Content(m, id)[..n]
    ensures Content(ReadFile(m, id, n), m.next + 1) == Content(m, id)[n..]
  {
    var m' := ReadFile(m, id, n);
    var b := m.buckets[id];
    forall x | x in m.buckets && x != id ensures Unmoved(m, m', m.buckets[x]) {
      StorageUnmoved(m, m', m.buckets[x]);
    }
    PartsDenote(m, b, n);
    assert Slice(Base(m, b.blk), b.start, n) == BytesOf(m, FirstPart(b, n));
    if n < b.length {
      StorageUnmoved(m, m', SecondPart(b, n));
    }
  }

  lemma {:induction false} ReadFileCounts(m: Memory, id: Id, n: nat)
    requires Plain(m) && id in m.buckets
    requires m.buckets[id].Shared? && m.buckets[id].kind == FileKind && n <= m.buckets[id].length
    ensures CountsMove(m, ReadFile(m, id, n), id, m.next + 1)
    ensures PipesMove(m, ReadFile(m, id, n), id, m.next + 1)
    ensures ReleasesAtMost(m, ReadFile(m, id, n))
  {
  }

  lemma {:induction false} OverwriteSlice(base: seq<byte>, start: nat, length: nat, data: seq<byte>)
    requires start + length + |data| <= |base|
    ensures Slice(Overwrite(base, start + length, data), start, length + |data|) == Slice(base, start, length) + data
  {
  }

  lemma {:induction false} AppendOwn(m: Memory, id: Id, data: seq<byte>, m': Memory)
    requires Writable(m, id) && BucketOk(m, m.buckets[id]) && |data| <= Room(m, id) && m' == Append(m, id, data)
    ensures BucketOk(m', m'.buckets[id]) && Content(m', id) == Content(m, id) + data
  {
    var b := m.buckets[id];
    OverwriteSlice(Base(m, b.blk), b.start, b.length, data);
  }

  lemma {:induction false} AppendOther(m: Memory, id: Id, data: seq<byte>, m': Memory, x: Id)
    requires Writable(m, id) && BucketOk(m, m.buckets[id]) && |data| <= Room(m, id) && m' == Append(m, id, data)
    requires x in m.buckets && BucketOk(m, m.buckets[x]) && !Reaches(m.buckets[x], m.buckets[id].blk)
    ensures Unmoved(m, m', m.buckets[x])
  {
  }

  lemma {:induction false} AppendContent(m: Memory, id: Id, data: seq<byte>)
    requires Plain(m) && Writable(m, id) && Alone(m, id) && |data| <= Room(m, id)
    ensures OnlyTouches(m, Append(m, id, data), id, m.next)
    ensures Content(Append(m, id, data), id) == Content(m, id) + data
  {
    var m' := Append(m, id, data);
    AppendOwn(m, id, data, m');
    forall x | x in m.buckets && x != id && x != m.next ensures Unmoved(m, m', m.buckets[x]) {
      AppendOther(m, id, data, m', x);
    }
  }

  lemma {:induction false} AppendCounts(m: Memory, id: Id, data: seq<byte>)
    requires Plain(m) && Writable(m, id) && |data| <= Room(m, id)
    ensures CountsMove(m, Append(m, id, data), id, m.next)
    ensures PipesMove(m, Append(m, id, data), id, m.next) && ReleasesAtMost(m, Append(m, id, data))
  {
  }

  // ----- Together: soundness of each operation

  lemma {:induction false} Touches(m: Memory, m': Memory, a: Id, b: Id, touched: set<Id>)
    requires Inv(m) && Step(m, m', a, b)
    requires (a in touched || m.next <= a) && (b in touched || m.next <= b)
    ensures Inv(m') && Evolves(m, m', touched)
  {
    StepSound(m, m', a, b);
    forall x | x in m.buckets && x !in touched ensures Keeps(m, m', x) {
      assert x !in {a, b};
    }
  }

  lemma {:induction false} CreateSound(m: Memory, b: Bucket)
    requires Inv(m) && BucketOk(m, b) && !b.Shared? && PipeFree(m, b)
    ensures Inv(Create(m, b)) && Evolves(m, Create(m, b), {})
    ensures Content(Create(m, b), m.next) == BytesOf(m, b)
  {
    CreateStep(m, b);
    Touches(m, Create(m, b), m.next + 1, m.next, {});
  }

  lemma {:induction false} CreateSharedSound(m: Memory, kind: Kind, storage: Storage, start: nat, length: nat)
    requires Inv(m) && Suits(m, kind, storage, start, length)
    ensures Inv(CreateShared(m, kind, storage, start, length))
    ensures Evolves(m, CreateShared(m, kind, storage, start, length), {})
    ensures Content(CreateShared(m, kind, storage, start, length), m.next + 1)
         == Slice(StorageBytes(m, storage), start, length)
  {
    CreateSharedStep(m, kind, storage, start, length);
    Touches(m, CreateShared(m, kind, storage, start, length), m.next + 1, m.next + 2, {});
  }

  lemma {:induction false} CopySound(m: Memory, id: Id)
    requires Inv(m) && id in m.buckets && CanCopy(m.buckets[id])
    ensures Inv(Copy(m, id)) && Evolves(m, Copy(m, id), {})
    ensures Content(Copy(m, id), m.next) == Content(m, id)
  {
    CopyStep(m, id);
    Touches(m, Copy(m, id), m.next, m.next + 1, {});
  }

  lemma {:induction false} SplitSound(m: Memory, id: Id, point: nat)
    requires Inv(m) && id in m.buckets && CanSplit(m.buckets[id], point)
    ensures Inv(Split(m, id, point)) && Evolves(m, Split(m, id, point), {id})
    ensures Content(Split(m, id, point), id) == Content(m, id)[..point]
    ensures Content(Split(m, id, point), m.next) == Content(m, id)[point..]
  {
    SplitContent(m, id, point);
    SplitCounts(m, id, point);
    Touches(m, Split(m, id, point), id, m.next, {id});
  }

  lemma {:induction false} DestroySound(m: Memory, id: Id)
    requires Inv(m) && id in m.buckets
    ensures Inv(Destroy(m, id)) && Evolves(m, Destroy(m, id), {id})
  {
    CountTellsAlone(m, id);
    DestroyContent(m, id);
    DestroyCounts(m, id);
    Touches(m, Destroy(m, id), id, m.next, {id});
  }

  lemma {:induction false} CleanPoolSound(m: Memory, k: Id)
    requires Inv(m) && k in m.blocks && m.blocks[k].storage.InPool?
    ensures Inv(CleanPool(m, k)) && Evolves(m, CleanPool(m, k), {})
  {
    CleanPoolStep(m, k);
    Touches(m, CleanPool(m, k), m.next, m.next + 1, {});
  }

  lemma {:induction false} ReadPoolSound(m: Memory, id: Id)
    requires Inv(m) && id in m.buckets && !m.buckets[id].Pipe?
    ensures Inv(ReadPool(m, id)) && Evolves(m, ReadPool(m, id), {id})
    ensures Content(ReadPool(m, id), id) == Content(m, id)
  {
    ReadPoolStep(m, id);
    Touches(m, ReadPool(m, id), id, m.next, {id});
  }

  /** What `apr_file_read` may deliver from a pipe into a buffer of BUFF_SIZE bytes: nothing only at its end. */
  predicate PipeDelivers(m: Memory, id: Id, n: nat, buf: seq<byte>) {
    && id in m.buckets && m.buckets[id].Pipe?
    && n <= |Content(m, id)| && n <= BUFF_SIZE && |buf| == BUFF_SIZE
    && (n == 0 <==> Content(m, id) == [])
  }

  /** A bucket became a heap bucket for its first n bytes; a new bucket, if there is one, holds the rest. */
  ghost predicate Morphs(m: Memory, m': Memory, id: Id, n: nat, added: seq<Id>) {
    && Evolves(m, m', {id}) && n <= |Content(m, id)|
    && id in m'.buckets && !Fallible(m'.buckets[id]) && Content(m', id) == Content(m, id)[..n]
    && (|| (added == [] && n == |Content(m, id)|)
        || (added == [m.next + 1] && m.next + 1 in m'.buckets && Fallible(m'.buckets[m.next + 1])
            && Content(m', m.next + 1) == Content(m, id)[n..]))
  }

  function PipeRest(m: Memory, n: nat): seq<Id> {
    if n > 0 then [m.next + 1] else []
  }

  lemma {:induction false} ReadPipeMorphs(m: Memory, id: Id, n: nat, buf: seq<byte>)
    requires Plain(m) && PipesOk(m) && PipeDelivers(m, id, n, buf)
    requires Evolves(m, ReadPipe(m, id, n, buf), {id})
    ensures Morphs(m, ReadPipe(m, id, n, buf), id, n, PipeRest(m, n))
  {
    ReadPipeContent(m, id, n, buf);
  }

  lemma {:induction false} ReadPipeStep(m: Memory, id: Id, n: nat, buf: seq<byte>)
    requires Plain(m) && PipesOk(m) && PipeDelivers(m, id, n, buf)
    ensures Step(m, ReadPipe(m, id, n, buf), id, m.next + 1)
  {
    ReadPipeContent(m, id, n, buf);
    ReadPipeCounts(m, id, n, buf);
  }

  lemma {:induction false} ReadPipeSound(m: Memory, id: Id, n: nat, buf: seq<byte>)
    requires Inv(m) && PipeDelivers(m, id, n, buf)
    ensures Inv(ReadPipe(m, id, n, buf)) && Morphs(m, ReadPipe(m, id, n, buf), id, n, PipeRest(m, n))
  {
    ReadPipeStep(m, id, n, buf);
    Touches(m, ReadPipe(m, id, n, buf), id, m.next + 1, {id});
    ReadPipeMorphs(m, id, n, buf);
  }

  /** What `apr_file_read` may deliver from a file into a buffer of at most BUFF_SIZE bytes. */
  predicate FileDelivers(m: Memory, id: Id, n: nat) {
    && id in m.buckets && m.buckets[id].Shared? && m.buckets[id].kind == FileKind
    && n <= m.buckets[id].length && n <= BUFF_SIZE
    && (n == 0 <==> m.buckets[id].length == 0)
  }

  function FileRest(m: Memory, b: Bucket, n: nat): seq<Id> {
    if b.Shared? && n < b.length then [m.next + 1] else []
  }

  lemma {:induction false} ReadFileMorphs(m: Memory, id: Id, n: nat)
    requires Plain(m) && FileDelivers(m, id, n) && Alone(m, id)
    requires Evolves(m, ReadFile(m, id, n), {id})
    ensures Morphs(m, ReadFile(m, id, n), id, n, FileRest(m, m.buckets[id], n))
  {
    ReadFileContent(m, id, n);
    LengthIs(m, id);
  }

  lemma {:induction false} ReadFileStep(m: Memory, id: Id, n: nat)
    requires Plain(m) && FileDelivers(m, id, n) && Alone(m, id)
    ensures Step(m, ReadFile(m, id, n), id, m.next + 1)
  {
    ReadFileContent(m, id, n);
    ReadFileCounts(m, id, n);
  }

  lemma {:induction false} ReadFileSound(m: Memory, id: Id, n: nat)
    requires Inv(m) && FileDelivers(m, id, n)
    ensures Inv(ReadFile(m, id, n)) && Morphs(m, ReadFile(m, id, n), id, n, FileRest(m, m.buckets[id], n))
  {
    CountTellsAlone(m, id);
    ReadFileStep(m, id, n);
    Touches(m, ReadFile(m, id, n), id, m.next + 1, {id});
    ReadFileMorphs(m, id, n);
  }

  lemma {:induction false} AppendSound(m: Memory, id: Id, data: seq<byte>)
    requires Inv(m) && Writable(m, id) && |data| <= Room(m, id)
    ensures Inv(Append(m, id, data)) && Evolves(m, Append(m, id, data), {id})
    ensures Content(Append(m, id, data), id) == Content(m, id) + data
  {
    CountTellsAlone(m, id);
    AppendContent(m, id, data);
    AppendCounts(m, id, data);
    Touches(m, Append(m, id, data), id, m.next, {id});
  }
}
