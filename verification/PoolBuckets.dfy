/**
  Pool and heap buckets with their pointers (apr-util/buckets/apr_buckets_pool.c and
  apr_buckets_heap.c): a descriptor has a `base` in the pool and a `heap.base`, a pool has memory that
  goes away and cleanups that are registered with it. An operation that would use a NULL pointer, memory
  that is gone or a descriptor that was freed gives `None`.

  It is proved that this never happens, and that every operation does what its counterpart in
  BucketSteps does, where the pointers are not seen.
 */
module PoolBuckets {
  import opened Bytes
  import opened Buckets
  import opened BucketSteps
  import opened Distinctness

  type Addr = nat

  const NULL: Addr := 0

  /** `apr_bucket_pool`, which starts with an `apr_bucket_heap`. A plain heap descriptor has no base and no pool. */
  datatype Desc = Desc(refcount: int, heapBase: Addr, allocLen: nat, base: Addr, pool: Addr)

  /** Memory of the bucket allocator; `holder` is the descriptor it was allocated for. */
  datatype Chunk = Chunk(bytes: seq<byte>, holder: Id)

  /** Memory of a pool. */
  datatype Region = Region(bytes: seq<byte>, pool: Addr)

  /** The descriptors, and what they point to. */
  datatype Links = Links(
    descs: map<Id, Desc>,
    chunks: map<Addr, Chunk>,
    regions: map<Addr, Region>,
    cleanups: map<Addr, seq<Id>>, // the registered cleanups of each pool that is there
    top: Addr)                    // addresses from here on are unused

  datatype World = World(
    buckets: map<Id, Bucket>,
    links: Links,
    freedDescs: seq<Id>,
    freedChunks: seq<Addr>,
    next: Id)

  // ----- The code, descriptors

  /** `apr_bucket_heap_make` with memory that is given to the bucket. */
  function HeapDesc(l: Links, k: Id, buf: seq<byte>): Links {
    l.(descs := l.descs[k := Desc(1, l.top, |buf|, NULL, NULL)], chunks := l.chunks[l.top := Chunk(buf, k)],
       top := l.top + 1)
  }

  /** `apr_bucket_pool_make`; the cleanup is registered with the pool. */
  function PoolDesc(l: Links, k: Id, buf: Addr, length: nat, pool: Addr): Links
    requires pool in l.cleanups
  {
    l.(descs := l.descs[k := Desc(1, NULL, length, buf, pool)],
       cleanups := l.cleanups[pool := l.cleanups[pool] + [k]])
  }

  function Recount(l: Links, k: Id, n: int): Links
    requires k in l.descs
  {
    l.(descs := l.descs[k := l.descs[k].(refcount := n)])
  }

  /** The bytes behind a pointer; none behind NULL, freed memory or memory of a pool that is gone. */
  function Load(l: Links, a: Addr, start: nat, length: nat): Option<seq<byte>> {
    if a in l.chunks && start + length <= |l.chunks[a].bytes| then Some(l.chunks[a].bytes[start..start + length])
    else if a in l.regions && start + length <= |l.regions[a].bytes|
    then Some(l.regions[a].bytes[start..start + length])
    else None
  }

  /** `pool_bucket_cleanup`: the data move out of the pool. */
  function PoolCleanup(l: Links, k: Id): Option<Links> {
    if k !in l.descs then None
    else
      var d := l.descs[k];
      var data := Load(l, d.base, 0, d.allocLen);
      if data.None? then None
      else Some(l.(descs := l.descs[k := d.(heapBase := l.top, base := NULL, pool := NULL)],
                   chunks := l.chunks[l.top := Chunk(data.value, k)], top := l.top + 1))
  }

  /** The destruction of a pool runs its cleanups, the last registered first; each is taken off before it runs. */
  function Fire(l: Links, pool: Addr): Option<Links>
    requires pool in l.cleanups && l.cleanups[pool] != []
  {
    var c := l.cleanups[pool];
    PoolCleanup(l.(cleanups := l.cleanups[pool := c[..|c| - 1]]), c[|c| - 1])
  }

  /** When they have run, the memory of the pool goes. */
  function Release(l: Links, pool: Addr): Links {
    l.(cleanups := l.cleanups - {pool},
       regions := map r | r in l.regions && l.regions[r].pool != pool :: l.regions[r])
  }

  function NewPool(l: Links, pool: Addr): Links { l.(cleanups := l.cleanups[pool := []]) }

  /** `apr_palloc`, and what the program stores there. */
  function NewRegion(l: Links, bytes: seq<byte>, pool: Addr): Links {
    l.(regions := l.regions[l.top := Region(bytes, pool)], top := l.top + 1)
  }

  /** `apr_pool_cleanup_kill` */
  function Without(s: seq<Id>, k: Id): seq<Id> {
    if s == [] then [] else (if s[0] == k then [] else [s[0]]) + Without(s[1..], k)
  }

  function Kill(l: Links, k: Id, pool: Addr): Links
    requires pool in l.cleanups
  {
    l.(descs := l.descs - {k}, cleanups := l.cleanups[pool := Without(l.cleanups[pool], k)])
  }

  function FreeHeap(l: Links, k: Id, a: Addr): Links {
    l.(descs := l.descs - {k}, chunks := l.chunks - {a})
  }

  function Store(l: Links, a: Addr, at: nat, data: seq<byte>): Links
    requires a in l.chunks && at + |data| <= |l.chunks[a].bytes|
  {
    l.(chunks := l.chunks[a := l.chunks[a].(bytes := Overwrite(l.chunks[a].bytes, at, data))])
  }

  // ----- The code, buckets

  function MakeHeap(w: World, buf: seq<byte>, length: nat): World {
    w.(buckets := w.buckets[w.next + 1 := Shared(HeapKind, w.next, 0, length)],
       links := HeapDesc(w.links, w.next, buf), next := w.next + 2)
  }

  function MakePool(w: World, buf: Addr, length: nat, pool: Addr): World
    requires pool in w.links.cleanups
  {
    w.(buckets := w.buckets[w.next + 1 := Shared(PoolKind, w.next, 0, length)],
       links := PoolDesc(w.links, w.next, buf, length, pool), next := w.next + 2)
  }

  /** `apr_bucket_shared_copy` */
  function CopyBucket(w: World, id: Id): Option<World>
    requires id in w.buckets && w.buckets[id].Shared?
  {
    var b := w.buckets[id];
    if b.blk !in w.links.descs then None
    else Some(w.(buckets := w.buckets[w.next := b],
                 links := Recount(w.links, b.blk, w.links.descs[b.blk].refcount + 1), next := w.next + 1))
  }

  /** `apr_bucket_shared_split` at a point within the bucket. */
  function SplitBucket(w: World, id: Id, point: nat): Option<World>
    requires id in w.buckets && w.buckets[id].Shared? && CanSplit(w.buckets[id], point)
  {
    var b := w.buckets[id];
    if b.blk !in w.links.descs then None
    else Some(w.(buckets := w.buckets[id := FirstPart(b, point)][w.next := SecondPart(b, point)],
                 links := Recount(w.links, b.blk, w.links.descs[b.blk].refcount + 1), next := w.next + 1))
  }

  /** `pool_bucket_read` and `heap_bucket_read`: the pointer they read through. */
  function ReadBase(d: Desc, kind: Kind): Addr {
    if kind == PoolKind && d.pool != NULL then d.base else d.heapBase
  }

  /** A pool bucket whose descriptor has lost its pool becomes a heap bucket. */
  function ReadBucket(w: World, id: Id): Option<(World, seq<byte>)>
    requires id in w.buckets && w.buckets[id].Shared?
  {
    var b := w.buckets[id];
    if b.blk !in w.links.descs then None
    else
      var d := w.links.descs[b.blk];
      var str := Load(w.links, ReadBase(d, b.kind), b.start, b.length);
      if str.None? then None
      else if b.kind == PoolKind && d.pool == NULL
      then Some((w.(buckets := w.buckets[id := b.(kind := HeapKind)]), str.value))
      else Some((w, str.value))
  }

  /** `heap_bucket_destroy`: with the last reference the data are freed, and then the descriptor. */
  function HeapDestroy(w: World, k: Id): Option<World> {
    if k !in w.links.descs then None
    else
      var d := w.links.descs[k];
      if d.refcount - 1 != 0 then Some(w.(links := Recount(w.links, k, d.refcount - 1)))
      else if d.heapBase !in w.links.chunks then None
      else Some(w.(links := FreeHeap(w.links, k, d.heapBase),
                   freedChunks := w.freedChunks + [d.heapBase], freedDescs := w.freedDescs + [k]))
  }

  /** `pool_bucket_destroy`: while the pool is there the cleanup is killed and only the descriptor freed. */
  function PoolDestroy(w: World, k: Id): Option<World> {
    if k !in w.links.descs then None
    else
      var d := w.links.descs[k];
      if d.pool == NULL then HeapDestroy(w, k)
      else if d.refcount - 1 != 0 then Some(w.(links := Recount(w.links, k, d.refcount - 1)))
      else if d.pool !in w.links.cleanups then None
      else Some(w.(links := Kill(w.links, k, d.pool), freedDescs := w.freedDescs + [k]))
  }

  function DestroyBucket(w: World, id: Id): Option<World>
    requires id in w.buckets && w.buckets[id].Shared?
  {
    var b := w.buckets[id];
    var w1 := w.(buckets := w.buckets - {id});
    if b.kind == PoolKind then PoolDestroy(w1, b.blk) else HeapDestroy(w1, b.blk)
  }

  /** The append of `apr_brigade_write` to a heap bucket. */
  function AppendBytes(w: World, id: Id, data: seq<byte>): Option<World>
    requires id in w.buckets && w.buckets[id].Shared?
  {
    var b := w.buckets[id];
    if b.blk !in w.links.descs || w.links.descs[b.blk].heapBase !in w.links.chunks then None
    else
      var a := w.links.descs[b.blk].heapBase;
      if b.start + b.length + |data| > |w.links.chunks[a].bytes| then None
      else Some(w.(buckets := w.buckets[id := b.(length := b.length + |data|)],
                   links := Store(w.links, a, b.start + b.length, data)))
  }

  // ----- What holds of the pointers

  /**
    Where the bytes of a descriptor are: in the pool until its cleanup has run, and the cleanup is
    registered; in a chunk of its own from then on.
   */
  ghost predicate DescOk(l: Links, k: Id, d: Desc) {
    if d.pool == NULL then
      && d.base == NULL && d.heapBase in l.chunks
      && l.chunks[d.heapBase].holder == k && |l.chunks[d.heapBase].bytes| == d.allocLen
    else
      && d.heapBase == NULL && d.base in l.regions
      && l.regions[d.base].pool == d.pool && d.allocLen <= |l.regions[d.base].bytes|
      && d.pool in l.cleanups && k in l.cleanups[d.pool]
  }

  /** A registered cleanup is that of a descriptor that is there and in that pool; none is registered twice. */
  ghost predicate CleanupsOk(l: Links, pool: Addr, c: seq<Id>) {
    pool != NULL && Distinct(c) && forall k :: k in c ==> k in l.descs && l.descs[k].pool == pool
  }

  /** A chunk belongs to a descriptor that is there. */
  ghost predicate ChunkOk(l: Links, a: Addr, c: Chunk) {
    && NULL < a < l.top && c.holder in l.descs
    && l.descs[c.holder].pool == NULL && l.descs[c.holder].heapBase == a
  }

  ghost predicate RegionOk(l: Links, r: Addr, region: Region) {
    NULL < r < l.top && r !in l.chunks && region.pool in l.cleanups
  }

  ghost predicate Linked(l: Links) {
    && l.top > NULL
    && (forall k {:trigger DescOk(l, k, l.descs[k])} :: k in l.descs ==> DescOk(l, k, l.descs[k]))
    && (forall p {:trigger CleanupsOk(l, p, l.cleanups[p])} :: p in l.cleanups ==> CleanupsOk(l, p, l.cleanups[p]))
    && (forall a {:trigger ChunkOk(l, a, l.chunks[a])} :: a in l.chunks ==> ChunkOk(l, a, l.chunks[a]))
    && (forall r {:trigger RegionOk(l, r, l.regions[r])} :: r in l.regions ==> RegionOk(l, r, l.regions[r]))
  }

  // ----- The same without pointers

  function StorageOf(l: Links, d: Desc): Storage {
    if d.pool == NULL then OnHeap(if d.heapBase in l.chunks then l.chunks[d.heapBase].bytes else [])
    else InPool(if d.base in l.regions then Slice(l.regions[d.base].bytes, 0, d.allocLen) else [])
  }

  function Blocks(l: Links): map<Id, Block> {
    map k | k in l.descs :: Block(l.descs[k].refcount, StorageOf(l, l.descs[k]))
  }

  // ----- Descriptors: the pointers stay right, and the block changes as it should

  /** Addresses that are not in use. */
  lemma {:induction false} TopFree(l: Links)
    requires Linked(l)
    ensures l.top !in l.chunks && l.top !in l.regions && NULL !in l.chunks && NULL !in l.regions
  {
    assert l.top in l.chunks ==> ChunkOk(l, l.top, l.chunks[l.top]);
    assert l.top in l.regions ==> RegionOk(l, l.top, l.regions[l.top]);
    assert NULL in l.chunks ==> ChunkOk(l, NULL, l.chunks[NULL]);
    assert NULL in l.regions ==> RegionOk(l, NULL, l.regions[NULL]);
  }

  lemma {:induction false} HeapDescLinked(l: Links, k: Id, buf: seq<byte>)
    requires Linked(l) && k !in l.descs
    ensures Linked(HeapDesc(l, k, buf))
  {
    TopFree(l);
    var l' := HeapDesc(l, k, buf);
    forall j | j in l'.descs ensures DescOk(l', j, l'.descs[j]) {
      assert j != k ==> DescOk(l, j, l.descs[j]);
    }
    forall p | p in l'.cleanups ensures CleanupsOk(l', p, l'.cleanups[p]) {
      assert CleanupsOk(l, p, l.cleanups[p]);
    }
    forall a | a in l'.chunks ensures ChunkOk(l', a, l'.chunks[a]) {
      assert a != l.top ==> ChunkOk(l, a, l.chunks[a]);
    }
    forall r | r in l'.regions ensures RegionOk(l', r, l'.regions[r]) {
      assert RegionOk(l, r, l.regions[r]);
    }
  }

  lemma {:induction false} PoolDescLinked(l: Links, k: Id, buf: Addr, length: nat, pool: Addr)
    requires Linked(l) && k !in l.descs && pool in l.cleanups && buf in l.regions
    requires l.regions[buf].pool == pool && length <= |l.regions[buf].bytes|
    ensures Linked(PoolDesc(l, k, buf, length, pool))
  {
    assert CleanupsOk(l, pool, l.cleanups[pool]);
    var l' := PoolDesc(l, k, buf, length, pool);
    forall j | j in l'.descs ensures DescOk(l', j, l'.descs[j]) {
      assert j != k ==> DescOk(l, j, l.descs[j]);
    }
    forall p | p in l'.cleanups ensures CleanupsOk(l', p, l'.cleanups[p]) {
      assert CleanupsOk(l, p, l.cleanups[p]);
    }
    forall a | a in l'.chunks ensures ChunkOk(l', a, l'.chunks[a]) {
      assert ChunkOk(l, a, l.chunks[a]);
    }
    forall r | r in l'.regions ensures RegionOk(l', r, l'.regions[r]) {
      assert RegionOk(l, r, l.regions[r]);
    }
  }

  lemma {:induction false} RecountLinked(l: Links, k: Id, n: int)
    requires Linked(l) && k in l.descs
    ensures Linked(Recount(l, k, n))
  {
    var l' := Recount(l, k, n);
    forall j | j in l'.descs ensures DescOk(l', j, l'.descs[j]) {
      assert DescOk(l, j, l.descs[j]);
    }
    forall p | p in l'.cleanups ensures CleanupsOk(l', p, l'.cleanups[p]) {
      assert CleanupsOk(l, p, l.cleanups[p]);
    }
    forall a | a in l'.chunks ensures ChunkOk(l', a, l'.chunks[a]) {
      assert ChunkOk(l, a, l.chunks[a]);
    }
    forall r | r in l'.regions ensures RegionOk(l', r, l'.regions[r]) {
      assert RegionOk(l, r, l.regions[r]);
    }
  }

  lemma {:induction false} StoreLinked(l: Links, a0: Addr, at: nat, data: seq<byte>)
    requires Linked(l) && a0 in l.chunks && at + |data| <= |l.chunks[a0].bytes|
    ensures Linked(Store(l, a0, at, data))
  {
    var l' := Store(l, a0, at, data);
    forall j | j in l'.descs ensures DescOk(l', j, l'.descs[j]) {
      assert DescOk(l, j, l.descs[j]);
    }
    forall p | p in l'.cleanups ensures CleanupsOk(l', p, l'.cleanups[p]) {
      assert CleanupsOk(l, p, l.cleanups[p]);
    }
    forall a | a in l'.chunks ensures ChunkOk(l', a, l'.chunks[a]) {
      assert ChunkOk(l, a, l.chunks[a]);
    }
    forall r | r in l'.regions ensures RegionOk(l', r, l'.regions[r]) {
      assert RegionOk(l, r, l.regions[r]);
    }
  }

  lemma {:induction false} FreeHeapLinked(l: Links, k: Id)
    requires Linked(l) && k in l.descs && l.descs[k].pool == NULL
    ensures Linked(FreeHeap(l, k, l.descs[k].heapBase))
  {
    assert DescOk(l, k, l.descs[k]);
    var l' := FreeHeap(l, k, l.descs[k].heapBase);
    forall j | j in l'.descs ensures DescOk(l', j, l'.descs[j]) {
      assert DescOk(l, j, l.descs[j]);
    }
    forall p | p in l'.cleanups ensures CleanupsOk(l', p, l'.cleanups[p]) {
      assert CleanupsOk(l, p, l.cleanups[p]);
    }
    forall a | a in l'.chunks ensures ChunkOk(l', a, l'.chunks[a]) {
      assert ChunkOk(l, a, l.chunks[a]);
    }
    forall r | r in l'.regions ensures RegionOk(l', r, l'.regions[r]) {
      assert RegionOk(l, r, l.regions[r]);
    }
  }

  lemma {:induction false} WithoutIn(s: seq<Id>, k: Id, x: Id)
    ensures x in Without(s, k) <==> x in s && x != k
  {
    if s != [] {
      WithoutIn(s[1..], k, x);
      assert x in s <==> x == s[0] || x in s[1..];
    }
  }

  lemma {:induction false} WithoutDistinct(s: seq<Id>, k: Id)
    requires Distinct(s)
    ensures Distinct(Without(s, k))
  {
    if s != [] {
      WithoutDistinct(s[1..], k);
      WithoutIn(s[1..], k, s[0]);
      assert s[0] !in s[1..];
      assert s[0] !in Without(s[1..], k);
    }
  }

  /** The cleanups that are left when one is killed. */
  lemma {:induction false} KillCleanups(l: Links, k: Id, pool: Addr)
    requires pool in l.cleanups && CleanupsOk(l, pool, l.cleanups[pool])
    ensures Distinct(Without(l.cleanups[pool], k))
    ensures forall j :: j in Without(l.cleanups[pool], k) <==> j in l.cleanups[pool] && j != k
  {
    WithoutDistinct(l.cleanups[pool], k);
    forall j ensures j in Without(l.cleanups[pool], k) <==> j in l.cleanups[pool] && j != k {
      WithoutIn(l.cleanups[pool], k, j);
    }
  }

  lemma {:induction false} KillLinked(l: Links, k: Id)
    requires Linked(l) && k in l.descs && l.descs[k].pool != NULL && l.descs[k].pool in l.cleanups
    ensures Linked(Kill(l, k, l.descs[k].pool))
  {
    assert DescOk(l, k, l.descs[k]) && CleanupsOk(l, l.descs[k].pool, l.cleanups[l.descs[k].pool]);
    KillCleanups(l, k, l.descs[k].pool);
    var l' := Kill(l, k, l.descs[k].pool);
    forall j | j in l'.descs ensures DescOk(l', j, l'.descs[j]) {
      assert DescOk(l, j, l.descs[j]);
    }
    forall p | p in l'.cleanups ensures CleanupsOk(l', p, l'.cleanups[p]) {
      assert CleanupsOk(l, p, l.cleanups[p]);
    }
    forall a | a in l'.chunks ensures ChunkOk(l', a, l'.chunks[a]) {
      assert ChunkOk(l, a, l.chunks[a]);
    }
    forall r | r in l'.regions ensures RegionOk(l', r, l'.regions[r]) {
      assert RegionOk(l, r, l.regions[r]);
    }
  }

  lemma {:induction false} ReleaseLinked(l: Links, pool: Addr)
    requires Linked(l) && pool in l.cleanups && l.cleanups[pool] == []
    ensures Linked(Release(l, pool))
  {
    var l' := Release(l, pool);
    forall j | j in l'.descs ensures DescOk(l', j, l'.descs[j]) {
      assert DescOk(l, j, l.descs[j]);
    }
    forall p | p in l'.cleanups ensures CleanupsOk(l', p, l'.cleanups[p]) {
      assert CleanupsOk(l, p, l.cleanups[p]);
    }
    forall a | a in l'.chunks ensures ChunkOk(l', a, l'.chunks[a]) {
      assert ChunkOk(l, a, l.chunks[a]);
    }
    forall r | r in l'.regions ensures RegionOk(l', r, l'.regions[r]) {
      assert RegionOk(l, r, l.regions[r]);
    }
  }

  lemma {:induction false} NewPoolLinked(l: Links, pool: Addr)
    requires Linked(l) && pool != NULL && pool !in l.cleanups
    ensures Linked(NewPool(l, pool))
  {
    var l' := NewPool(l, pool);
    forall j | j in l'.descs ensures DescOk(l', j, l'.descs[j]) {
      assert DescOk(l, j, l.descs[j]);
    }
    forall p | p in l'.cleanups ensures CleanupsOk(l', p, l'.cleanups[p]) {
      assert p != pool ==> CleanupsOk(l, p, l.cleanups[p]);
    }
    forall a | a in l'.chunks ensures ChunkOk(l', a, l'.chunks[a]) {
      assert ChunkOk(l, a, l.chunks[a]);
    }
    forall r | r in l'.regions ensures RegionOk(l', r, l'.regions[r]) {
      assert RegionOk(l, r, l.regions[r]);
    }
  }

  lemma {:induction false} NewRegionLinked(l: Links, bytes: seq<byte>, pool: Addr)
    requires Linked(l) && pool in l.cleanups
    ensures Linked(NewRegion(l, bytes, pool))
  {
    TopFree(l);
    var l' := NewRegion(l, bytes, pool);
    forall j | j in l'.descs ensures DescOk(l', j, l'.descs[j]) {
      assert DescOk(l, j, l.descs[j]);
    }
    forall p | p in l'.cleanups ensures CleanupsOk(l', p, l'.cleanups[p]) {
      assert CleanupsOk(l, p, l.cleanups[p]);
    }
    forall a | a in l'.chunks ensures ChunkOk(l', a, l'.chunks[a]) {
      assert ChunkOk(l, a, l.chunks[a]);
    }
    forall r | r in l'.regions ensures RegionOk(l', r, l'.regions[r]) {
      assert r != l.top ==> RegionOk(l, r, l.regions[r]);
    }
  }

  /** A cleanup that is registered finds its descriptor and its data. */
  lemma {:induction false} FireLinked(l: Links, pool: Addr)
    requires Linked(l) && pool in l.cleanups && l.cleanups[pool] != []
    ensures Fire(l, pool).Some?
    ensures Linked(Fire(l, pool).value)
  {
    TopFree(l);
    var c := l.cleanups[pool];
    var k := c[|c| - 1];
    assert CleanupsOk(l, pool, c) && DescOk(l, k, l.descs[k]);
    assert RegionOk(l, l.descs[k].base, l.regions[l.descs[k].base]);
    var l' := Fire(l, pool).value;
    forall j | j in l'.descs ensures DescOk(l', j, l'.descs[j]) {
      assert DescOk(l, j, l.descs[j]);
      assert j in c && j != k ==> j in c[..|c| - 1];
    }
    forall p | p in l'.cleanups ensures CleanupsOk(l', p, l'.cleanups[p]) {
      assert CleanupsOk(l, p, l.cleanups[p]);
    }
    forall a | a in l'.chunks ensures ChunkOk(l', a, l'.chunks[a]) {
      assert a != l.top ==> ChunkOk(l, a, l.chunks[a]);
    }
    forall r | r in l'.regions ensures RegionOk(l', r, l'.regions[r]) {
      assert RegionOk(l, r, l.regions[r]);
    }
  }

  lemma {:induction false} HeapDescBlocks(l: Links, k: Id, buf: seq<byte>)
    requires Linked(l) && k !in l.descs
    ensures Blocks(HeapDesc(l, k, buf)) == Blocks(l)[k := Block(1, OnHeap(buf))]
  {
    TopFree(l);
    var l' := HeapDesc(l, k, buf);
    forall j | j in l.descs ensures StorageOf(l', l.descs[j]) == StorageOf(l, l.descs[j]) {
      assert DescOk(l, j, l.descs[j]);
    }
  }

  lemma {:induction false} PoolDescBlocks(l: Links, k: Id, buf: Addr, length: nat, pool: Addr)
    requires k !in l.descs && pool in l.cleanups && pool != NULL && buf in l.regions
    ensures Blocks(PoolDesc(l, k, buf, length, pool))
         == Blocks(l)[k := Block(1, InPool(Slice(l.regions[buf].bytes, 0, length)))]
  {
  }

  lemma {:induction false} RecountBlocks(l: Links, k: Id, n: int)
    requires k in l.descs
    ensures Blocks(Recount(l, k, n)) == Blocks(l)[k := Blocks(l)[k].(refcount := n)]
  {
  }

  lemma {:induction false} StoreBlocks(l: Links, k: Id, at: nat, data: seq<byte>)
    requires Linked(l) && k in l.descs && l.descs[k].pool == NULL && at + |data| <= l.descs[k].allocLen
    ensures l.descs[k].heapBase in l.chunks && |l.chunks[l.descs[k].heapBase].bytes| == l.descs[k].allocLen
    ensures Blocks(Store(l, l.descs[k].heapBase, at, data))
         == Blocks(l)[k := Block(l.descs[k].refcount, OnHeap(Overwrite(l.chunks[l.descs[k].heapBase].bytes, at, data)))]
  {
    assert DescOk(l, k, l.descs[k]);
    var l' := Store(l, l.descs[k].heapBase, at, data);
    forall j | j in l.descs && j != k ensures StorageOf(l', l.descs[j]) == StorageOf(l, l.descs[j]) {
      assert DescOk(l, j, l.descs[j]);
    }
  }

  lemma {:induction false} FreeHeapBlocks(l: Links, k: Id)
    requires Linked(l) && k in l.descs && l.descs[k].pool == NULL
    ensures Blocks(FreeHeap(l, k, l.descs[k].heapBase)) == Blocks(l) - {k}
  {
    assert DescOk(l, k, l.descs[k]);
    var l' := FreeHeap(l, k, l.descs[k].heapBase);
    forall j | j in l'.descs ensures StorageOf(l', l.descs[j]) == StorageOf(l, l.descs[j]) {
      assert DescOk(l, j, l.descs[j]);
    }
  }

  lemma {:induction false} KillBlocks(l: Links, k: Id, pool: Addr)
    requires pool in l.cleanups
    ensures Blocks(Kill(l, k, pool)) == Blocks(l) - {k}
  {
  }

  lemma {:induction false} ReleaseBlocks(l: Links, pool: Addr)
    requires Linked(l) && pool in l.cleanups && l.cleanups[pool] == []
    ensures Blocks(Release(l, pool)) == Blocks(l)
  {
    var l' := Release(l, pool);
    forall j | j in l.descs ensures StorageOf(l', l.descs[j]) == StorageOf(l, l.descs[j]) {
      assert DescOk(l, j, l.descs[j]);
    }
  }

  lemma {:induction false} NewRegionBlocks(l: Links, bytes: seq<byte>, pool: Addr)
    requires Linked(l)
    ensures Blocks(NewRegion(l, bytes, pool)) == Blocks(l)
  {
    TopFree(l);
    var l' := NewRegion(l, bytes, pool);
    forall j | j in l.descs ensures StorageOf(l', l.descs[j]) == StorageOf(l, l.descs[j]) {
      assert DescOk(l, j, l.descs[j]);
    }
  }

  lemma {:induction false} FireBlocks(l: Links, pool: Addr)
    requires Linked(l) && pool in l.cleanups && l.cleanups[pool] != [] && Fire(l, pool).Some?
    ensures var k := l.cleanups[pool][|l.cleanups[pool]| - 1];
      && k in Blocks(l) && Blocks(l)[k].storage.InPool?
      && Blocks(Fire(l, pool).value) == Blocks(l)[k := Blocks(l)[k].(storage := OnHeap(Blocks(l)[k].storage.base))]
  {
    TopFree(l);
    var c := l.cleanups[pool];
    var k := c[|c| - 1];
    assert CleanupsOk(l, pool, c) && DescOk(l, k, l.descs[k]);
    assert RegionOk(l, l.descs[k].base, l.regions[l.descs[k].base]);
    var l' := Fire(l, pool).value;
    forall j | j in l.descs && j != k ensures StorageOf(l', l.descs[j]) == StorageOf(l, l.descs[j]) {
      assert DescOk(l, j, l.descs[j]);
    }
  }
}
