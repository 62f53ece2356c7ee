/**
  How runs of pool and heap buckets can end: pools may go before the buckets made of their memory, and what
  was allocated can all be given back.
 */
module PoolEnds {
  import opened Bytes
  import opened Buckets
  import opened BucketRuns
  import opened PoolBuckets
  import opened PoolRuns

  lemma {:induction false} RunsOn(w: World, es: seq<Event>, w1: World, more: seq<Event>, w2: World)
    requires PoolRuns.Runs(w, es, w1) && PoolRuns.Runs(w1, more, w2)
    ensures PoolRuns.Runs(w, es + more, w2)
    decreases |es|
  {
    if es == [] {
      assert es + more == more;
    } else {
      assert (es + more)[1..] == es[1..] + more;
      RunsOn(Happens(w, es[0]).value, es[1..], w1, more, w2);
    }
  }

  lemma {:induction false} RunsOne(w: World, e: Event)
    requires Possible(w, e) && Happens(w, e).Some?
    ensures PoolRuns.Runs(w, [e], Happens(w, e).value)
  {
    assert [e][1..] == [];
  }

  // ----- Pools end first

  /** The buckets are the same and denote the same bytes, and no descriptor was freed. */
  ghost predicate SameBytes(w: World, w': World) {
    && w'.buckets == w.buckets && w'.freedDescs == w.freedDescs
    && forall id :: id in w.buckets ==> Content(Abstract(w'), id) == Content(Abstract(w), id)
  }

  lemma {:induction false} FireCleanups(w: World, pool: Addr)
    requires Possible(w, FireEvent(pool)) && Happens(w, FireEvent(pool)).Some?
    ensures var w' := Happens(w, FireEvent(pool)).value; var c := w.links.cleanups[pool];
      && w'.buckets == w.buckets && w'.freedDescs == w.freedDescs
      && w'.links.cleanups == w.links.cleanups[pool := c[..|c| - 1]]
  {
  }

  lemma {:induction false} FireContent(w: World, e: Event, id: Id)
    requires Sound(w) && Possible(w, e) && e.FireEvent? && id in w.buckets
    ensures Happens(w, e).Some? && Content(Abstract(Happens(w, e).value), id) == Content(Abstract(w), id)
  {
    EventSound(w, e);
    ContentStays(Abstract(w), Counterpart(w, e).value, id);
  }

  lemma {:induction false} FireSame(w: World, pool: Addr)
    requires Sound(w) && Possible(w, FireEvent(pool))
    ensures Happens(w, FireEvent(pool)).Some?
    ensures Sound(Happens(w, FireEvent(pool)).value) && SameBytes(w, Happens(w, FireEvent(pool)).value)
  {
    EventSound(w, FireEvent(pool));
    FireCleanups(w, pool);
    forall id | id in w.buckets
      ensures Content(Abstract(Happens(w, FireEvent(pool)).value), id) == Content(Abstract(w), id)
    {
      FireContent(w, FireEvent(pool), id);
    }
  }

  lemma {:induction false} ReleaseSame(w: World, pool: Addr)
    requires Sound(w) && Possible(w, ReleaseEvent(pool))
    ensures Happens(w, ReleaseEvent(pool)).Some?
    ensures Sound(Happens(w, ReleaseEvent(pool)).value) && SameBytes(w, Happens(w, ReleaseEvent(pool)).value)
  {
    EventSound(w, ReleaseEvent(pool));
    SameView(w, Happens(w, ReleaseEvent(pool)).value);
  }

  lemma {:induction false} ReleaseCleanups(w: World, pool: Addr)
    requires Possible(w, ReleaseEvent(pool))
    ensures Happens(w, ReleaseEvent(pool)).value.links.cleanups == w.links.cleanups - {pool}
  {
  }

  lemma {:induction false} SameView(w: World, w': World)
    requires Abstract(w') == Abstract(w)
    ensures SameBytes(w, w')
  {
    assert Abstract(w').buckets == w'.buckets && Abstract(w').released == w'.freedDescs;
  }

  /** The end of a pool: its cleanups, one after the other, and then its memory goes. */
  lemma {:induction false} EndPool(w: World, pool: Addr) returns (es: seq<Event>, w': World)
    requires Sound(w) && pool in w.links.cleanups
    ensures PoolRuns.Runs(w, es, w') && Sound(w') && SameBytes(w, w')
    ensures w'.links.cleanups.Keys == w.links.cleanups.Keys - {pool}
    decreases |w.links.cleanups[pool]|
  {
    if w.links.cleanups[pool] == [] {
      es := [ReleaseEvent(pool)];
      ReleaseSame(w, pool);
      ReleaseCleanups(w, pool);
      RunsOne(w, es[0]);
      w' := Happens(w, es[0]).value;
    } else {
      var e := FireEvent(pool);
      FireSame(w, pool);
      FireCleanups(w, pool);
      RunsOne(w, e);
      var w1 := Happens(w, e).value;
      var more;
      more, w' := EndPool(w1, pool);
      es := [e] + more;
      RunsOn(w, [e], w1, more, w');
    }
  }

  lemma {:induction false} EndPools(w: World) returns (es: seq<Event>, w': World)
    requires Sound(w)
    ensures PoolRuns.Runs(w, es, w') && Sound(w') && SameBytes(w, w') && w'.links.cleanups == map[]
    decreases |w.links.cleanups.Keys|
  {
    if w.links.cleanups == map[] {
      return [], w;
    }
    var pool :| pool in w.links.cleanups;
    var w1, more;
    es, w1 := EndPool(w, pool);
    more, w' := EndPools(w1);
    RunsOn(w, es, w1, more, w');
    es := es + more;
  }

  lemma {:induction false} RegionHasPool(l: Links, r: Addr)
    requires Linked(l) && r in l.regions
    ensures l.regions[r].pool in l.cleanups
  {
    assert RegionOk(l, r, l.regions[r]);
  }

  lemma {:induction false} ChunkHasDesc(l: Links, a: Addr)
    requires Linked(l) && a in l.chunks
    ensures l.chunks[a].holder in l.descs
  {
    assert ChunkOk(l, a, l.chunks[a]);
  }

  lemma {:induction false} DescHasBucket(w: World, k: Id)
    requires CountsOk(Abstract(w)) && k in w.links.descs
    ensures exists id :: id in w.buckets
  {
    assert k in Abstract(w).blocks && |Sharers(w.buckets, k)| > 0;
    var id :| id in Sharers(w.buckets, k);
  }

  /** Without pools there is no memory of pools. */
  lemma {:induction false} NoRegions(w: World)
    requires Linked(w.links) && w.links.cleanups == map[]
    ensures w.links.regions == map[]
  {
    forall r | r in w.links.regions ensures false {
      RegionHasPool(w.links, r);
    }
  }

  /**
    From every reachable state all pools can be destroyed while buckets made of their memory are there; all
    that memory is gone then, and every bucket reads the bytes it read before.
   */
  lemma {:induction false} PoolsGoFirst(before: seq<Event>, w: World) returns (es: seq<Event>, w': World)
    requires PoolRuns.Runs(EMPTY, before, w)
    ensures PoolRuns.Runs(w, es, w') && w'.links.cleanups == map[] && w'.links.regions == map[]
    ensures w'.buckets == w.buckets
    ensures forall id :: id in w.buckets ==>
      && w.buckets[id].Shared? && ReadBucket(w, id).Some? && ReadBucket(w', id).Some?
      && ReadBucket(w', id).value.1 == ReadBucket(w, id).value.1
  {
    EmptySound();
    PoolRuns.RunSound(EMPTY, before, w);
    es, w' := EndPools(w);
    NoRegions(w');
    forall id | id in w.buckets
      ensures w.buckets[id].Shared? && ReadBucket(w, id).Some? && ReadBucket(w', id).Some?
      ensures ReadBucket(w', id).value.1 == ReadBucket(w, id).value.1
    {
      ReadMeets(w, id);
      ReadMeets(w', id);
    }
  }

  // ----- Everything is given back

  /** Descriptors and data that are no longer there were freed. */
  ghost predicate Returned(w: World, w': World) {
    && (forall k :: k in w.links.descs ==> k in w'.links.descs || k in w'.freedDescs)
    && (forall k :: k in w.freedDescs ==> k in w'.freedDescs)
  }

  lemma {:induction false} DestroyReturns(w: World, id: Id)
    requires Sound(w) && Possible(w, DestroyEvent(id))
    ensures Happens(w, DestroyEvent(id)).Some?
    ensures var w' := Happens(w, DestroyEvent(id)).value;
      Sound(w') && w'.buckets == w.buckets - {id} && Returned(w, w')
  {
    EventSound(w, DestroyEvent(id));
    DestroyDrops(w, id);
  }

  lemma {:induction false} DestroyAll(w: World) returns (es: seq<Event>, w': World)
    requires Sound(w)
    ensures PoolRuns.Runs(w, es, w') && Sound(w') && w'.buckets == map[] && Returned(w, w')
    decreases |w.buckets.Keys|
  {
    if w.buckets == map[] {
      return [], w;
    }
    var id :| id in w.buckets;
    var e := DestroyEvent(id);
    DestroyReturns(w, id);
    RunsOne(w, e);
    var w1 := Happens(w, e).value;
    assert w1.buckets.Keys == w.buckets.Keys - {id};
    var more;
    more, w' := DestroyAll(w1);
    es := [e] + more;
    RunsOn(w, [e], w1, more, w');
  }

  /** Without buckets there are no descriptors, and without descriptors no data. */
  lemma {:induction false} NothingLeft(w: World)
    requires Sound(w) && w.buckets == map[]
    ensures w.links.descs == map[] && w.links.chunks == map[]
  {
    forall k | k in w.links.descs ensures false {
      DescHasBucket(w, k);
    }
    forall a | a in w.links.chunks ensures false {
      ChunkHasDesc(w.links, a);
    }
  }

  /**
    From every reachable state, whatever was shared, read or cleaned up before: when the buckets are destroyed
    and then the pools, nothing is left, and every descriptor was freed, which happens once.
   */
  lemma {:induction false} AllGivenBack(before: seq<Event>, w: World) returns (es: seq<Event>, w': World)
    requires PoolRuns.Runs(EMPTY, before, w)
    ensures PoolRuns.Runs(w, es, w')
    ensures w'.buckets == map[] && w'.links.descs == map[] && w'.links.chunks == map[]
    ensures w'.links.cleanups == map[] && w'.links.regions == map[]
    ensures forall k :: k in w.links.descs ==> k in w'.freedDescs
  {
    EmptySound();
    PoolRuns.RunSound(EMPTY, before, w);
    var w1, more;
    es, w1 := DestroyAll(w);
    NothingLeft(w1);
    more, w' := EndPools(w1);
    RunsOn(w, es, w1, more, w');
    es := es + more;
    NothingLeft(w');
    NoRegions(w');
  }
}
