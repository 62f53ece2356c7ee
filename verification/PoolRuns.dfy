/**
  Runs of pool and heap buckets with their pointers (apr-util/buckets/apr_buckets_pool.c and
  apr_buckets_heap.c), any number of pools being created and destroyed at any time: nothing undefined
  happens, and the runs are those of BucketRuns.
 */
module PoolRuns {
  import opened Bytes
  import opened Buckets
  import opened BucketSteps
  import opened BucketRuns
  import opened Distinctness
  import opened PoolBuckets

  /** The memory as the module Buckets sees it. */
  function Abstract(w: World): Memory {
    Memory(w.buckets, Blocks(w.links), map[], map[], w.freedDescs, w.next)
  }

  /** Data are freed once, and are not there afterwards. */
  ghost predicate FreedOk(w: World) {
    Distinct(w.freedChunks) && forall a :: a in w.freedChunks ==> a !in w.links.chunks && a < w.links.top
  }

  ghost predicate PoolOrHeap(buckets: map<Id, Bucket>) {
    forall id :: id in buckets ==> buckets[id].Shared? && buckets[id].kind != FileKind
  }

  /** The part of soundness that does not speak of sharers. */
  ghost predicate Shaped(w: World) {
    Linked(w.links) && FreedOk(w) && PoolOrHeap(w.buckets) && IdsOk(Abstract(w)) && BucketsOk(Abstract(w))
  }

  ghost predicate Sound(w: World) {
    Linked(w.links) && FreedOk(w) && PoolOrHeap(w.buckets) && Inv(Abstract(w))
  }

  // ----- Events

  datatype Event =
    | MakeHeapEvent(buf: seq<byte>, length: nat)
    | MakePoolEvent(base: Addr, length: nat, pool: Addr)
    | CopyEvent(id: Id)
    | SplitEvent(id: Id, point: nat)
    | ReadEvent(id: Id)
    | DestroyEvent(id: Id)
    | AppendEvent(id: Id, data: seq<byte>)
    | NewPoolEvent(pool: Addr)
    | NewRegionEvent(bytes: seq<byte>, pool: Addr)
    | FireEvent(pool: Addr)
    | ReleaseEvent(pool: Addr)

  /** The test of `apr_brigade_write` before it appends. */
  predicate MayAppend(w: World, id: Id, data: seq<byte>) {
    && id in w.buckets && w.buckets[id].Shared? && w.buckets[id].kind == HeapKind
    && w.buckets[id].blk in w.links.descs && w.links.descs[w.buckets[id].blk].refcount == 1
    && |data| <= w.links.descs[w.buckets[id].blk].allocLen - (w.buckets[id].length + w.buckets[id].start)
  }

  /**
    What a program may do: use buckets it has, make pool buckets of memory of that pool, and destroy
    pools, which runs their cleanups before their memory goes. A cleanup runs because it is
    registered; whether its descriptor is still there is not asked.
   */
  predicate Possible(w: World, e: Event) {
    match e
    case MakeHeapEvent(buf, length) => length <= |buf|
    case MakePoolEvent(base, length, pool) =>
      && base in w.links.regions && w.links.regions[base].pool == pool && pool in w.links.cleanups
      && length <= |w.links.regions[base].bytes|
    case CopyEvent(id) => id in w.buckets && w.buckets[id].Shared?
    case SplitEvent(id, point) => id in w.buckets && w.buckets[id].Shared? && CanSplit(w.buckets[id], point)
    case ReadEvent(id) => id in w.buckets && w.buckets[id].Shared?
    case DestroyEvent(id) => id in w.buckets && w.buckets[id].Shared?
    case AppendEvent(id, data) => MayAppend(w, id, data)
    case NewPoolEvent(pool) => pool != NULL && pool !in w.links.cleanups
    case NewRegionEvent(bytes, pool) => pool in w.links.cleanups
    case FireEvent(pool) => pool in w.links.cleanups && w.links.cleanups[pool] != []
    case ReleaseEvent(pool) => pool in w.links.cleanups && w.links.cleanups[pool] == []
  }

  function FireCleanup(w: World, pool: Addr): Option<World>
    requires pool in w.links.cleanups && w.links.cleanups[pool] != []
  {
    match Fire(w.links, pool)
    case Some(l) => Some(w.(links := l))
    case None => None
  }

  /** The state after an event; none if it does something undefined. */
  function Happens(w: World, e: Event): Option<World>
    requires Possible(w, e)
  {
    match e
    case MakeHeapEvent(buf, length) => Some(MakeHeap(w, buf, length))
    case MakePoolEvent(base, length, pool) => Some(MakePool(w, base, length, pool))
    case CopyEvent(id) => CopyBucket(w, id)
    case SplitEvent(id, point) => SplitBucket(w, id, point)
    case ReadEvent(id) => (var r := ReadBucket(w, id); if r.Some? then Some(r.value.0) else None)
    case DestroyEvent(id) => DestroyBucket(w, id)
    case AppendEvent(id, data) => AppendBytes(w, id, data)
    case NewPoolEvent(pool) => Some(w.(links := NewPool(w.links, pool)))
    case NewRegionEvent(bytes, pool) => Some(w.(links := NewRegion(w.links, bytes, pool)))
    case FireEvent(pool) => FireCleanup(w, pool)
    case ReleaseEvent(pool) => Some(w.(links := Release(w.links, pool)))
  }

  /** The operation without pointers that an event is; some events are none. */
  function Counterpart(w: World, e: Event): Option<Op>
    requires Possible(w, e)
  {
    match e
    case MakeHeapEvent(buf, length) => Some(CreateSharedOp(HeapKind, OnHeap(buf), 0, length))
    case MakePoolEvent(base, length, pool) =>
      Some(CreateSharedOp(PoolKind, InPool(Slice(w.links.regions[base].bytes, 0, length)), 0, length))
    case CopyEvent(id) => Some(CopyOp(id))
    case SplitEvent(id, point) => Some(SplitOp(id, point))
    case ReadEvent(id) => Some(ReadPoolOp(id))
    case DestroyEvent(id) => Some(DestroyOp(id))
    case AppendEvent(id, data) => Some(AppendOp(id, data))
    case NewPoolEvent(_) => None
    case NewRegionEvent(_, _) => None
    case FireEvent(pool) => Some(CleanPoolOp(w.links.cleanups[pool][|w.links.cleanups[pool]| - 1]))
    case ReleaseEvent(_) => None
  }

  // ----- Each event does what its counterpart does

  /** What is to be shown of an event: it is defined, and its counterpart makes the same step. */
  ghost predicate Matches(w: World, w': World, op: Op) {
    && Linked(w'.links) && FreedOk(w') && PoolOrHeap(w'.buckets)
    && BucketsOk(Abstract(w)) && Enabled(Abstract(w), op) && Abstract(w') == Apply(Abstract(w), op)
  }

  lemma {:induction false} FreedStays(w: World, w': World)
    requires FreedOk(w) && w'.freedChunks == w.freedChunks && w.links.top <= w'.links.top
    requires forall a :: a in w'.links.chunks ==> a in w.links.chunks || a == w.links.top
    ensures FreedOk(w')
  {
  }

  lemma {:induction false} MakeHeapMatches(w: World, buf: seq<byte>, length: nat)
    requires Shaped(w) && length <= |buf|
    ensures Matches(w, MakeHeap(w, buf, length), CreateSharedOp(HeapKind, OnHeap(buf), 0, length))
  {
    assert w.next !in Blocks(w.links);
    HeapDescLinked(w.links, w.next, buf);
    HeapDescBlocks(w.links, w.next, buf);
    FreedStays(w, MakeHeap(w, buf, length));
  }

  lemma {:induction false} MakePoolMatches(w: World, base: Addr, length: nat, pool: Addr)
    requires Shaped(w) && Possible(w, MakePoolEvent(base, length, pool))
    ensures Matches(w, MakePool(w, base, length, pool), Counterpart(w, MakePoolEvent(base, length, pool)).value)
  {
    assert w.next !in Blocks(w.links);
    assert CleanupsOk(w.links, pool, w.links.cleanups[pool]);
    PoolDescLinked(w.links, w.next, base, length, pool);
    PoolDescBlocks(w.links, w.next, base, length, pool);
    FreedStays(w, MakePool(w, base, length, pool));
  }

  lemma {:induction false} HasDesc(w: World, id: Id)
    requires Shaped(w) && id in w.buckets && w.buckets[id].Shared?
    ensures w.buckets[id].blk in w.links.descs
    ensures DescOk(w.links, w.buckets[id].blk, w.links.descs[w.buckets[id].blk])
  {
    assert BucketOk(Abstract(w), w.buckets[id]);
  }

  lemma {:induction false} CopyMatches(w: World, id: Id)
    requires Shaped(w) && Possible(w, CopyEvent(id))
    ensures CopyBucket(w, id).Some? && Matches(w, CopyBucket(w, id).value, CopyOp(id))
  {
    HasDesc(w, id);
    var k := w.buckets[id].blk;
    RecountLinked(w.links, k, w.links.descs[k].refcount + 1);
    RecountBlocks(w.links, k, w.links.descs[k].refcount + 1);
    FreedStays(w, CopyBucket(w, id).value);
  }

  lemma {:induction false} SplitSame(w: World, id: Id, point: nat)
    requires Possible(w, SplitEvent(id, point)) && BucketOk(Abstract(w), w.buckets[id])
    ensures SplitBucket(w, id, point).Some?
    ensures Abstract(SplitBucket(w, id, point).value) == Split(Abstract(w), id, point)
  {
    var k := w.buckets[id].blk;
    RecountBlocks(w.links, k, w.links.descs[k].refcount + 1);
  }

  lemma {:induction false} SplitMatches(w: World, id: Id, point: nat)
    requires Shaped(w) && Possible(w, SplitEvent(id, point))
    ensures SplitBucket(w, id, point).Some? && Matches(w, SplitBucket(w, id, point).value, SplitOp(id, point))
  {
    HasDesc(w, id);
    var k := w.buckets[id].blk;
    RecountLinked(w.links, k, w.links.descs[k].refcount + 1);
    SplitSame(w, id, point);
    FreedStays(w, SplitBucket(w, id, point).value);
  }

  /** A read meets the bytes that the bucket denotes, whichever pointer it goes through. */
  lemma {:induction false} ReadMeets(w: World, id: Id)
    requires Shaped(w) && Possible(w, ReadEvent(id))
    ensures ReadBucket(w, id).Some? && ReadBucket(w, id).value.1 == Content(Abstract(w), id)
  {
    HasDesc(w, id);
    var b := w.buckets[id];
    var d := w.links.descs[b.blk];
    assert BucketOk(Abstract(w), b);
    assert d.pool != NULL ==> RegionOk(w.links, d.base, w.links.regions[d.base]);
  }

  lemma {:induction false} ReadMatches(w: World, id: Id)
    requires Shaped(w) && Possible(w, ReadEvent(id))
    ensures ReadBucket(w, id).Some? && Matches(w, ReadBucket(w, id).value.0, ReadPoolOp(id))
  {
    HasDesc(w, id);
    ReadMeets(w, id);
  }

  lemma {:induction false} AppendSame(w: World, id: Id, data: seq<byte>)
    requires Linked(w.links) && MayAppend(w, id, data) && BucketOk(Abstract(w), w.buckets[id])
    ensures AppendBytes(w, id, data).Some?
    ensures Writable(Abstract(w), id) && |data| <= Room(Abstract(w), id)
    ensures Abstract(AppendBytes(w, id, data).value) == Append(Abstract(w), id, data)
  {
    var b := w.buckets[id];
    assert DescOk(w.links, b.blk, w.links.descs[b.blk]);
    StoreBlocks(w.links, b.blk, b.start + b.length, data);
  }

  lemma {:induction false} AppendMatches(w: World, id: Id, data: seq<byte>)
    requires Shaped(w) && MayAppend(w, id, data)
    ensures AppendBytes(w, id, data).Some? && Matches(w, AppendBytes(w, id, data).value, AppendOp(id, data))
  {
    HasDesc(w, id);
    var b := w.buckets[id];
    assert BucketOk(Abstract(w), b);
    StoreLinked(w.links, w.links.descs[b.blk].heapBase, b.start + b.length, data);
    AppendSame(w, id, data);
  }

  lemma {:induction false} FireMatches(w: World, pool: Addr)
    requires Shaped(w) && Possible(w, FireEvent(pool))
    ensures FireCleanup(w, pool).Some? && Matches(w, FireCleanup(w, pool).value, Counterpart(w, FireEvent(pool)).value)
  {
    FireLinked(w.links, pool);
    FireBlocks(w.links, pool);
    FreedStays(w, FireCleanup(w, pool).value);
  }

  ghost predicate Unregistered(l: Links, k: Id) {
    forall p :: p in l.cleanups ==> k !in l.cleanups[p]
  }

  /** What the destruction of a bucket does to its descriptor: one reference less, or nothing left of it. */
  ghost predicate Dropped(w: World, w1: World, k: Id) {
    && k in w.links.descs && w1.buckets == w.buckets && w1.next == w.next
    && (if w.links.descs[k].refcount - 1 != 0 then
          w1 == w.(links := Recount(w.links, k, w.links.descs[k].refcount - 1))
        else if w.links.descs[k].pool == NULL then
          w1 == w.(links := FreeHeap(w.links, k, w.links.descs[k].heapBase),
                   freedChunks := w.freedChunks + [w.links.descs[k].heapBase], freedDescs := w.freedDescs + [k])
        else
          && w.links.descs[k].pool in w.links.cleanups
          && w1 == w.(links := Kill(w.links, k, w.links.descs[k].pool), freedDescs := w.freedDescs + [k]))
  }

  /** Both destroy functions come to this, and meet no pointer that they cannot use. */
  lemma {:induction false} DestroyDrops(w: World, id: Id)
    requires Shaped(w) && Possible(w, DestroyEvent(id))
    ensures DestroyBucket(w, id).Some?
    ensures Dropped(w.(buckets := w.buckets - {id}), DestroyBucket(w, id).value, w.buckets[id].blk)
  {
    HasDesc(w, id);
    assert BucketOk(Abstract(w), w.buckets[id]);
  }

  lemma {:induction false} DroppedFrees(w: World, w1: World, k: Id)
    requires Dropped(w, w1, k) && Linked(w1.links)
    ensures k in w1.links.descs ==> w1.freedDescs == w.freedDescs && w1.freedChunks == w.freedChunks
    ensures k !in w1.links.descs ==>
      && w1.freedDescs == w.freedDescs + [k] && Unregistered(w1.links, k)
      && w1.freedChunks == w.freedChunks
           + (if w.links.descs[k].pool == NULL then [w.links.descs[k].heapBase] else [])
  {
    forall p | p in w1.links.cleanups ensures k !in w1.links.descs ==> k !in w1.links.cleanups[p] {
      assert CleanupsOk(w1.links, p, w1.links.cleanups[p]);
    }
  }

  lemma {:induction false} DroppedLinked(w: World, w1: World, k: Id)
    requires Linked(w.links) && FreedOk(w) && Dropped(w, w1, k)
    ensures Linked(w1.links) && FreedOk(w1)
  {
    assert DescOk(w.links, k, w.links.descs[k]);
    if w.links.descs[k].refcount - 1 != 0 {
      RecountLinked(w.links, k, w.links.descs[k].refcount - 1);
    } else if w.links.descs[k].pool == NULL {
      var a := w.links.descs[k].heapBase;
      FreeHeapLinked(w.links, k);
      assert ChunkOk(w.links, a, w.links.chunks[a]);
      assert a !in w.freedChunks;
    } else {
      KillLinked(w.links, k);
    }
  }

  lemma {:induction false} DroppedSame(w: World, w1: World, k: Id)
    requires Linked(w.links) && Dropped(w, w1, k)
    ensures Abstract(w1) == Unref(Abstract(w), k)
  {
    if w.links.descs[k].refcount - 1 != 0 {
      RecountBlocks(w.links, k, w.links.descs[k].refcount - 1);
    } else if w.links.descs[k].pool == NULL {
      FreeHeapBlocks(w.links, k);
    } else {
      KillBlocks(w.links, k, w.links.descs[k].pool);
    }
  }

  lemma {:induction false} DestroyMatches(w: World, id: Id)
    requires Shaped(w) && Possible(w, DestroyEvent(id))
    ensures DestroyBucket(w, id).Some? && Matches(w, DestroyBucket(w, id).value, DestroyOp(id))
  {
    DestroyDrops(w, id);
    var w0 := w.(buckets := w.buckets - {id});
    var w1 := DestroyBucket(w, id).value;
    var k := w.buckets[id].blk;
    DroppedLinked(w0, w1, k);
    DroppedSame(w0, w1, k);
    assert BucketOk(Abstract(w), w.buckets[id]);
    assert Abstract(w0) == Abstract(w).(buckets := Abstract(w).buckets - {id});
  }

  /** Events that no bucket operation corresponds to: not even the memory of a pool going away is noticed. */
  lemma {:induction false} PoolEventsUnseen(w: World, e: Event)
    requires Shaped(w) && Possible(w, e) && (e.NewPoolEvent? || e.NewRegionEvent? || e.ReleaseEvent?)
    ensures Happens(w, e).Some?
    ensures Linked(Happens(w, e).value.links) && FreedOk(Happens(w, e).value)
    ensures Abstract(Happens(w, e).value) == Abstract(w)
  {
    match e
    case NewPoolEvent(pool) => NewPoolLinked(w.links, pool);
      assert Blocks(NewPool(w.links, pool)) == Blocks(w.links);
    case NewRegionEvent(bytes, pool) => NewRegionLinked(w.links, bytes, pool);
      NewRegionBlocks(w.links, bytes, pool);
    case ReleaseEvent(pool) => ReleaseLinked(w.links, pool);
      ReleaseBlocks(w.links, pool);
  }

  lemma {:induction false} EventMatches(w: World, e: Event)
    requires Shaped(w) && Possible(w, e) && Counterpart(w, e).Some?
    ensures Happens(w, e).Some? && Matches(w, Happens(w, e).value, Counterpart(w, e).value)
  {
    match e
    case MakeHeapEvent(buf, length) => MakeHeapMatches(w, buf, length);
    case MakePoolEvent(base, length, pool) => MakePoolMatches(w, base, length, pool);
    case CopyEvent(id) => CopyMatches(w, id);
    case SplitEvent(id, point) => SplitMatches(w, id, point);
    case ReadEvent(id) => ReadMatches(w, id);
    case DestroyEvent(id) => DestroyMatches(w, id);
    case AppendEvent(id, data) => AppendMatches(w, id, data);
    case FireEvent(pool) => FireMatches(w, pool);
  }

  /**
    No event does anything undefined in a sound state: no read or cleanup goes through NULL, a freed
    descriptor, freed data or memory of a pool that is gone. Without the pointers it is the operation
    of BucketRuns, or nothing.
   */
  lemma {:induction false} EventSound(w: World, e: Event)
    requires Sound(w) && Possible(w, e)
    ensures Happens(w, e).Some? && Sound(Happens(w, e).value)
    ensures Counterpart(w, e).None? ==> Abstract(Happens(w, e).value) == Abstract(w)
    ensures Counterpart(w, e).Some? ==>
      && BucketsOk(Abstract(w)) && Enabled(Abstract(w), Counterpart(w, e).value)
      && Abstract(Happens(w, e).value) == Apply(Abstract(w), Counterpart(w, e).value)
  {
    if Counterpart(w, e).Some? {
      EventMatches(w, e);
      ApplySound(Abstract(w), Counterpart(w, e).value);
    } else {
      PoolEventsUnseen(w, e);
      assert Abstract(Happens(w, e).value).buckets == w.buckets;
    }
  }

  // ----- Runs

  const EMPTY := World(map[], Links(map[], map[], map[], map[], 1), [], [], 0)

  ghost predicate Runs(w: World, es: seq<Event>, w': World)
    decreases |es|
  {
    if es == [] then w' == w
    else Possible(w, es[0]) && Happens(w, es[0]).Some? && Runs(Happens(w, es[0]).value, es[1..], w')
  }

  lemma {:induction false} RunSound(w: World, es: seq<Event>, w': World)
    requires Sound(w) && Runs(w, es, w')
    ensures Sound(w')
    decreases |es|
  {
    if es != [] {
      EventSound(w, es[0]);
      RunSound(Happens(w, es[0]).value, es[1..], w');
    }
  }

  lemma {:induction false} EmptySound()
    ensures Sound(EMPTY)
  {
    assert Abstract(EMPTY).blocks == map[];
  }

  /** Whatever a program did, nothing that it may do next is undefined. */
  lemma {:induction false} NeverUndefined(es: seq<Event>, w: World, e: Event)
    requires Runs(EMPTY, es, w) && Possible(w, e)
    ensures Happens(w, e).Some?
  {
    EmptySound();
    RunSound(EMPTY, es, w);
    EventSound(w, e);
  }

  /** The bucket whose bytes an event changes, if there is one. */
  function Works(e: Event): set<Id> {
    match e
    case SplitEvent(id, _) => {id}
    case DestroyEvent(id) => {id}
    case AppendEvent(id, _) => {id}
    case _ => {}
  }

  lemma {:induction false} ContentStays(m: Memory, op: Op, id: Id)
    requires Inv(m) && Enabled(m, op) && id in m.buckets
    requires id !in Target(op) || op == ReadPoolOp(id)
    ensures id in Apply(m, op).buckets && Content(Apply(m, op), id) == Content(m, id)
  {
    ApplySound(m, op);
    if op == ReadPoolOp(id) {
      ReadPoolSound(m, id);
    } else {
      assert Keeps(m, Apply(m, op), id);
    }
  }

  /**
    A bucket reads the same bytes before and after every event that is not a split, a destruction or
    an append of its own: operations on buckets that share its descriptor, an earlier read, the
    cleanup of its pool, and the end of its pool's memory.
   */
  lemma {:induction false} ReadsSame(es: seq<Event>, w: World, e: Event, id: Id)
    requires Runs(EMPTY, es, w) && Possible(w, e) && id in w.buckets && id !in Works(e)
    ensures Happens(w, e).Some? && id in Happens(w, e).value.buckets
    ensures w.buckets[id].Shared? && ReadBucket(w, id).Some?
    ensures Happens(w, e).value.buckets[id].Shared? && ReadBucket(Happens(w, e).value, id).Some?
    ensures ReadBucket(Happens(w, e).value, id).value.1 == ReadBucket(w, id).value.1
  {
    EmptySound();
    RunSound(EMPTY, es, w);
    EventSound(w, e);
    if Counterpart(w, e).Some? {
      ContentStays(Abstract(w), Counterpart(w, e).value, id);
    }
    ReadMeets(w, id);
    ReadMeets(Happens(w, e).value, id);
  }

  /**
    In every reachable state descriptors and data have been freed at most once and are gone since; a
    descriptor is there because buckets refer to it, data because their descriptor does, and a cleanup
    is registered, once, exactly for each descriptor that is still in its pool.
   */
  lemma {:induction false} FreedOnce(es: seq<Event>, w: World)
    requires Runs(EMPTY, es, w)
    ensures Distinct(w.freedDescs) && forall k :: k in w.freedDescs ==> k !in w.links.descs
    ensures Distinct(w.freedChunks) && forall a :: a in w.freedChunks ==> a !in w.links.chunks
    ensures forall k :: k in w.links.descs ==> w.links.descs[k].refcount == |Sharers(w.buckets, k)| > 0
    ensures forall a :: a in w.links.chunks ==>
      var k := w.links.chunks[a].holder; k in w.links.descs && w.links.descs[k].heapBase == a
    ensures forall p, k :: p in w.links.cleanups && k in w.links.cleanups[p] ==>
      k in w.links.descs && w.links.descs[k].pool == p
    ensures forall p :: p in w.links.cleanups ==> Distinct(w.links.cleanups[p])
    ensures forall k :: k in w.links.descs && w.links.descs[k].pool != NULL ==>
      var p := w.links.descs[k].pool; p in w.links.cleanups && k in w.links.cleanups[p]
  {
    EmptySound();
    RunSound(EMPTY, es, w);
    var l := w.links;
    assert forall k :: k in l.descs ==> k in Abstract(w).blocks && DescOk(l, k, l.descs[k]);
    assert forall p :: p in l.cleanups ==> CleanupsOk(l, p, l.cleanups[p]);
    assert forall a :: a in l.chunks ==> ChunkOk(l, a, l.chunks[a]);
    assert ReleasedOk(Abstract(w));
  }

  /**
    The destruction of the last bucket frees the descriptor, and with it the data exactly when they
    are no longer in the pool; no other destruction frees anything, and no cleanup is left for what was freed.
   */
  lemma {:induction false} DestroyFrees(es: seq<Event>, w: World, id: Id)
    requires Runs(EMPTY, es, w) && Possible(w, DestroyEvent(id))
    ensures DestroyBucket(w, id).Some? && w.buckets[id].blk in w.links.descs
    ensures var w' := DestroyBucket(w, id).value; var k := w.buckets[id].blk;
      if Sharers(w'.buckets, k) != {} then
        k in w'.links.descs && w'.freedDescs == w.freedDescs && w'.freedChunks == w.freedChunks
      else
        && k !in w'.links.descs && w'.freedDescs == w.freedDescs + [k] && Unregistered(w'.links, k)
        && w'.freedChunks == w.freedChunks
             + (if w.links.descs[k].pool == NULL then [w.links.descs[k].heapBase] else [])
  {
    EmptySound();
    RunSound(EMPTY, es, w);
    DestroyDrops(w, id);
    EventSound(w, DestroyEvent(id));
    var w' := DestroyBucket(w, id).value;
    BlockIffShared(Abstract(w'), w.buckets[id].blk);
    DroppedFrees(w.(buckets := w.buckets - {id}), w', w.buckets[id].blk);
  }
}
