/**
  The bucket allocator (apr-util/buckets/apr_buckets_alloc.c), with addresses.

  Small requests come from a free list of equal nodes or are cut off the front block; larger ones
  get memory of their own from the allocator underneath. Where that allocator places new memory is
  a parameter: any place that is not in use, or NULL when it fails.
 */
module BucketAllocator {

  const NULL := 0

  /** Memory obtained from the allocator underneath; `avail` is its `first_avail`, `end` its `endp`. */
  datatype Region = Region(start: int, avail: int, end: int)

  /** `node_header_t`; its `next` is in a map of its own. */
  datatype Header = Header(size: nat, memnode: int)

  // ----- What holds of the fields

  predicate Clear(a: int, aEnd: int, b: int, bEnd: int) { aEnd <= b || bEnd <= a }

  predicate Apart(r: Region, q: Region) { Clear(r.start, r.end, q.start, q.end) }

  predicate RegionOk(r: Region) { NULL < r.start <= r.avail <= r.end }

  ghost predicate RegionsOk(regions: map<int, Region>, blocks: seq<int>) {
    && (forall r :: r in regions ==> RegionOk(regions[r]))
    && (forall r, q {:trigger Apart(regions[r], regions[q])} ::
          r in regions && q in regions && r != q ==> Apart(regions[r], regions[q]))
    && blocks != [] && blocks[0] in regions && (forall b :: b in blocks ==> b in regions)
  }

  /** A node lies in the used part of its region; a large one does not share it. */
  ghost predicate NodeOk(small: nat, regions: map<int, Region>, blocks: seq<int>, n: int, h: Header) {
    && h.memnode in regions && small <= h.size
    && regions[h.memnode].start <= n && n + h.size <= regions[h.memnode].avail
    && (h.memnode in blocks <==> h.size == small)
  }

  ghost predicate NodesOk(small: nat, regions: map<int, Region>, blocks: seq<int>, nodes: map<int, Header>) {
    && (forall n :: n in nodes ==> NodeOk(small, regions, blocks, n, nodes[n]))
    && (forall n, k {:trigger Disjoint(small, n, nodes[n], k, nodes[k])} ::
          n in nodes && k in nodes && n != k ==> Disjoint(small, n, nodes[n], k, nodes[k]))
  }

  /** Two nodes do not overlap, and only small ones share a region. */
  predicate Disjoint(small: nat, n: int, h: Header, k: int, g: Header) {
    Clear(n, n + h.size, k, k + g.size) && (h.memnode == g.memnode ==> h.size == small == g.size)
  }

  /** The free list: no node twice, linked in order, ended by NULL, and only small nodes. */
  ghost predicate FreeOk(small: nat, nodes: map<int, Header>, next: map<int, int>, freelist: int, free: seq<int>) {
    && freelist == (if free == [] then NULL else free[0])
    && (forall i, j :: 0 <= i < j < |free| ==> free[i] != free[j])
    && (forall i :: 0 <= i < |free| ==> NULL < free[i] && free[i] in nodes && nodes[free[i]].size == small)
    && (forall i :: 0 <= i < |free| ==> free[i] in next && next[free[i]] == After(free, i))
  }

  function After(free: seq<int>, i: nat): int { if i + 1 < |free| then free[i + 1] else NULL }

  /** What is handed out are the nodes that are not in the free list, each at least as large as was asked for. */
  ghost predicate LiveOk(header: nat, nodes: map<int, Header>, free: seq<int>, live: map<int, nat>) {
    && (forall n :: n in live <==> n in nodes && n !in free)
    && (forall n :: n in live ==> live[n] + header <= nodes[n].size)
  }

  // ----- Steps on the fields

  ghost predicate Unused(regions: map<int, Region>, at: int, size: nat) {
    && NULL < at && at !in regions
    && forall r :: r in regions ==> Clear(at, at + size, regions[r].start, regions[r].end)
  }

  lemma {:induction false} AddRegion(small: nat, regions: map<int, Region>, blocks: seq<int>, nodes: map<int, Header>,
                  at: int, region: Region, blocks': seq<int>)
    requires RegionsOk(regions, blocks) && NodesOk(small, regions, blocks, nodes)
    requires RegionOk(region) && region.start == at && Unused(regions, at, region.end - at)
    requires blocks' == blocks || blocks' == [at] + blocks
    ensures RegionsOk(regions[at := region], blocks') && NodesOk(small, regions[at := region], blocks', nodes)
  {
    var regions' := regions[at := region];
    assert forall b :: b in blocks' ==> b == at || b in blocks;
    forall r, q | r in regions' && q in regions' && r != q ensures Apart(regions'[r], regions'[q]) {
      assert r != at && q != at ==> Apart(regions[r], regions[q]);
    }
    forall n, k | n in nodes && k in nodes && n != k ensures Disjoint(small, n, nodes[n], k, nodes[k]) { }
    forall n | n in nodes ensures NodeOk(small, regions', blocks', n, nodes[n]) {
      assert NodeOk(small, regions, blocks, n, nodes[n]);
    }
  }

  /** Two nodes in different regions do not overlap. */
  lemma {:induction false} ApartByRegion(small: nat, regions: map<int, Region>, blocks: seq<int>, n: int, h: Header,
                                         k: int, g: Header)
    requires RegionsOk(regions, blocks)
    requires NodeOk(small, regions, blocks, n, h) && NodeOk(small, regions, blocks, k, g) && h.memnode != g.memnode
    ensures Disjoint(small, n, h, k, g)
  {
    assert Apart(regions[h.memnode], regions[g.memnode]);
    assert RegionOk(regions[h.memnode]) && RegionOk(regions[g.memnode]);
  }

  lemma {:induction false} CarvedBeside(small: nat, regions: map<int, Region>, blocks: seq<int>, b: int,
                                        regions': map<int, Region>, n: int, g: Header)
    requires 0 < small && RegionsOk(regions, blocks) && NodeOk(small, regions, blocks, n, g)
    requires b in blocks && regions[b].avail + small <= regions[b].end && RegionsOk(regions', blocks)
    requires regions' == regions[b := regions[b].(avail := regions[b].avail + small)]
    ensures n != regions[b].avail && NodeOk(small, regions', blocks, n, g)
    ensures Disjoint(small, regions[b].avail, Header(small, b), n, g)
    ensures Disjoint(small, n, g, regions[b].avail, Header(small, b))
  {
    assert RegionOk(regions[b]);
    var at, h := regions[b].avail, Header(small, b);
    assert NodeOk(small, regions', blocks, at, h);
    if g.memnode != b {
      ApartByRegion(small, regions', blocks, at, h, n, g);
      ApartByRegion(small, regions', blocks, n, g, at, h);
    }
  }

  /** The node cut off the front of what is available in block b. */
  lemma {:induction false} CarveOk(small: nat, regions: map<int, Region>, blocks: seq<int>, nodes: map<int, Header>,
                                   b: int,
                regions': map<int, Region>, nodes': map<int, Header>)
    requires 0 < small && RegionsOk(regions, blocks) && NodesOk(small, regions, blocks, nodes)
    requires b in blocks && regions[b].avail + small <= regions[b].end
    requires regions' == regions[b := regions[b].(avail := regions[b].avail + small)]
    requires nodes' == nodes[regions[b].avail := Header(small, b)]
    ensures regions[b].avail !in nodes
    ensures RegionsOk(regions', blocks) && NodesOk(small, regions', blocks, nodes')
  {
    var at := regions[b].avail;
    var h := Header(small, b);
    assert RegionOk(regions[b]);
    assert NodeOk(small, regions', blocks, at, h);
    assert RegionsOk(regions', blocks) by {
      forall r, q | r in regions' && q in regions' && r != q ensures Apart(regions'[r], regions'[q]) {
        assert Apart(regions[r], regions[q]);
      }
    }
    forall n | n in nodes
      ensures n != at && NodeOk(small, regions', blocks, n, nodes[n])
      ensures Disjoint(small, at, h, n, nodes[n]) && Disjoint(small, n, nodes[n], at, h)
    {
      CarvedBeside(small, regions, blocks, b, regions', n, nodes[n]);
    }
    forall n, k | n in nodes && k in nodes && n != k ensures Disjoint(small, n, nodes[n], k, nodes[k]) { }
  }

  /** A large node in memory of its own. */
  lemma {:induction false} LargeOk(small: nat, regions: map<int, Region>, blocks: seq<int>, nodes: map<int, Header>,
                                   at: int, size: nat)
    requires 0 < small < size && RegionsOk(regions, blocks) && NodesOk(small, regions, blocks, nodes)
    requires Unused(regions, at, size)
    ensures at !in nodes
    ensures var regions' := regions[at := Region(at, at + size, at + size)];
      && RegionsOk(regions', blocks)
      && NodesOk(small, regions', blocks, nodes[at := Header(size, at)])
  {
    var h := Header(size, at);
    var regions' := regions[at := Region(at, at + size, at + size)];
    AddRegion(small, regions, blocks, nodes, at, Region(at, at + size, at + size), blocks);
    assert at !in blocks;
    assert NodeOk(small, regions', blocks, at, h);
    forall n | n in nodes
      ensures n != at && Disjoint(small, at, h, n, nodes[n]) && Disjoint(small, n, nodes[n], at, h)
    {
      assert NodeOk(small, regions, blocks, n, nodes[n]);
      ApartByRegion(small, regions', blocks, at, h, n, nodes[n]);
      ApartByRegion(small, regions', blocks, n, nodes[n], at, h);
    }
    forall n, k | n in nodes && k in nodes && n != k ensures Disjoint(small, n, nodes[n], k, nodes[k]) { }
  }

  /** Giving back the memory of a large node takes nothing else with it. */
  lemma {:induction false} DropOk(small: nat, regions: map<int, Region>, blocks: seq<int>, nodes: map<int, Header>,
                                  n: int)
    requires 0 < small && RegionsOk(regions, blocks) && NodesOk(small, regions, blocks, nodes)
    requires n in nodes && nodes[n].size != small
    ensures RegionsOk(regions - {nodes[n].memnode}, blocks)
    ensures NodesOk(small, regions - {nodes[n].memnode}, blocks, nodes - {n})
  {
    var regions', nodes' := regions - {nodes[n].memnode}, nodes - {n};
    assert NodeOk(small, regions, blocks, n, nodes[n]);
    forall k | k in nodes' ensures NodeOk(small, regions', blocks, k, nodes'[k]) {
      assert NodeOk(small, regions, blocks, k, nodes[k]);
      assert Disjoint(small, n, nodes[n], k, nodes[k]);
    }
    forall j, k | j in nodes' && k in nodes' && j != k ensures Disjoint(small, j, nodes'[j], k, nodes'[k]) {
      assert Disjoint(small, j, nodes[j], k, nodes[k]);
    }
    forall r, q | r in regions' && q in regions' && r != q ensures Apart(regions'[r], regions'[q]) {
      assert Apart(regions[r], regions[q]);
    }
  }

  lemma {:induction false} PopOk(small: nat, nodes: map<int, Header>, next: map<int, int>, freelist: int,
                                 free: seq<int>)
    requires FreeOk(small, nodes, next, freelist, free) && freelist != NULL
    ensures freelist in next && free != [] && FreeOk(small, nodes, next, next[freelist], free[1..])
    ensures forall n :: n in free[1..] <==> n in free && n != freelist
  {
    var rest := free[1..];
    forall i | 0 <= i < |rest| ensures rest[i] in next && next[rest[i]] == After(rest, i) {
      assert rest[i] == free[i + 1] && After(rest, i) == After(free, i + 1);
    }
    assert forall n :: n in free <==> n == free[0] || n in rest;
  }

  lemma {:induction false} PushOk(small: nat, nodes: map<int, Header>, next: map<int, int>, freelist: int,
                                  free: seq<int>, n: int)
    requires FreeOk(small, nodes, next, freelist, free) && n !in free
    requires n in nodes && nodes[n].size == small && NULL < n
    ensures FreeOk(small, nodes, next[n := freelist], n, [n] + free)
    ensures forall k :: k in [n] + free <==> k == n || k in free
  {
    var free' := [n] + free;
    assert forall i :: 0 < i < |free'| ==> free'[i] == free[i - 1];
  }

  lemma {:induction false} FreeFrame(small: nat, nodes: map<int, Header>, nodes': map<int, Header>,
                                     next: map<int, int>, freelist: int, free: seq<int>)
    requires FreeOk(small, nodes, next, freelist, free)
    requires forall i :: 0 <= i < |free| ==> free[i] in nodes' && nodes'[free[i]] == nodes[free[i]]
    ensures FreeOk(small, nodes', next, freelist, free)
  {
  }

  class BucketAlloc {
    const header: nat         // SIZEOF_NODE_HEADER_T
    const small: nat          // SMALL_NODE_SIZE
    const amount: nat         // ALLOC_AMT
    var regions: map<int, Region>
    var blocks: seq<int>      // the active block first
    var nodes: map<int, Header>
    var next: map<int, int>
    var freelist: int
    ghost var free: seq<int>       // the nodes in the free list
    ghost var live: map<int, nat>  // the nodes handed out, with the size that was asked for

    /** Everything but the account of what was handed out. */
    ghost predicate Sound()
      reads this
    {
      && 0 < header < small < amount
      && RegionsOk(regions, blocks) && NodesOk(small, regions, blocks, nodes)
      && FreeOk(small, nodes, next, freelist, free)
    }

    ghost predicate Valid()
      reads this
    {
      Sound() && LiveOk(header, nodes, free, live)
    }

    /** `apr_bucket_alloc_create_ex`: one block, which also holds the allocator's own record of `own` bytes. */
    constructor (header: nat, small: nat, amount: nat, own: nat, at: int)
      requires 0 < header < small < amount && own <= amount && NULL < at
      ensures Valid() && live == map[]
      ensures this.header == header && this.small == small && this.amount == amount
    {
      this.header, this.small, this.amount := header, small, amount;
      regions := map[at := Region(at, at + own, at + amount)];
      blocks := [at];
      nodes, next, freelist := map[], map[], NULL;
      live, free := map[], [];
    }

    /** The active block has room for one more node at most: the last one is never cut off. */
    predicate BlockFull()
      requires blocks != [] && blocks[0] in regions
      reads this
    {
      regions[blocks[0]].avail + small >= regions[blocks[0]].end
    }

    /** A request that the allocator underneath has to be asked for. */
    ghost predicate Needs(size: nat)
      requires Sound()
      reads this
    {
      size + header > small || (free == [] && BlockFull())
    }

    method TakeFree() returns (node: int)
      requires Sound() && freelist != NULL
      modifies this`freelist, this`free
      ensures Sound() && node in nodes && nodes[node].size == small && old(free) == [node] + free
      ensures forall n :: n in free <==> n in old(free) && n != node
    {
      PopOk(small, nodes, next, freelist, free);
      node := freelist;
      freelist := next[node];
      free := free[1..];
    }

    /** Ask for another block when the active one is used up; false if there is none to be had. */
    method EnsureRoom(at: int) returns (ok: bool)
      requires Sound() && (at == NULL || Unused(regions, at, amount))
      modifies this`regions, this`blocks
      ensures Sound() && (ok ==> regions[blocks[0]].avail + small <= regions[blocks[0]].end)
      ensures ok ==> regions[blocks[0]].avail == (if old(BlockFull()) then at else old(regions[blocks[0]].avail))
      ensures ok <==> at != NULL || !old(BlockFull())
      ensures regions.Keys == old(regions).Keys + (if ok && old(BlockFull()) then {at} else {})
      ensures !ok ==> regions == old(regions) && blocks == old(blocks)
    {
      if BlockFull() {
        if at == NULL {
          return false;
        }
        var block := Region(at, at, at + amount);
        AddRegion(small, regions, blocks, nodes, at, block, [at] + blocks);
        regions := regions[at := block];
        blocks := [at] + blocks;
      }
      ok := true;
    }

    method CutNode() returns (node: int)
      requires Sound() && regions[blocks[0]].avail + small <= regions[blocks[0]].end
      modifies this`regions, this`nodes
      ensures node == old(regions[blocks[0]].avail)
      ensures regions == old(regions)[blocks[0] := old(regions[blocks[0]]).(avail := node + small)]
      ensures Sound() && node !in old(nodes) && nodes == old(nodes)[node := Header(small, blocks[0])]
    {
      var b := blocks[0];
      node := regions[b].avail;
      var regions' := regions[b := regions[b].(avail := node + small)];
      var nodes' := nodes[node := Header(small, b)];
      CarveOk(small, regions, blocks, nodes, b, regions', nodes');
      FreeFrame(small, nodes, nodes', next, freelist, free);
      regions, nodes := regions', nodes';
    }

    method OwnNode(size: nat, at: int)
      requires Sound() && small < size && Unused(regions, at, size)
      modifies this`regions, this`nodes
      ensures regions.Keys == old(regions).Keys + {at}
      ensures Sound() && at !in old(nodes) && nodes == old(nodes)[at := Header(size, at)]
    {
      LargeOk(small, regions, blocks, nodes, at, size);
      FreeFrame(small, nodes, nodes[at := Header(size, at)], next, freelist, free);
      regions := regions[at := Region(at, at + size, at + size)];
      nodes := nodes[at := Header(size, at)];
    }

    /** How much memory `apr_bucket_alloc` may ask the allocator underneath for. */
    function Asks(size: nat): nat {
      if size + header <= small then amount else size + header
    }

    method NodeFor(size: nat, at: int) returns (node: int)
      requires Valid() && (at == NULL || Unused(regions, at, Asks(size)))
      modifies this`regions, this`blocks, this`nodes, this`freelist, this`free
      ensures Sound()
      ensures node != NULL ==> node in nodes && node !in free && size + header <= nodes[node].size
      ensures node != NULL ==> node in old(free) || node !in old(nodes)
      ensures forall n :: n in old(nodes) ==> n in nodes && nodes[n] == old(nodes)[n]
      ensures forall n :: n in nodes ==> n in old(nodes) || (n == node && node != NULL)
      ensures forall n :: n in free <==> n in old(free) && (n != node || node == NULL)
      ensures node == NULL <==> at == NULL && old(Needs(size))
      ensures regions.Keys == old(regions).Keys + (if node != NULL && old(Needs(size)) then {at} else {})
      ensures size + header <= small && old(free) != [] ==> old(free) == [node] + free
      ensures size + header <= small && old(free) == [] && node != NULL ==>
        && node == (if old(BlockFull()) then at else old(regions[blocks[0]].avail))
        && regions[blocks[0]].avail == node + small
    {
      node := NULL;
      if size + header <= small {
        if freelist != NULL {
          node := TakeFree();
        } else {
          var ok := EnsureRoom(at);
          if ok {
            node := CutNode();
          }
        }
      } else if at != NULL {
        OwnNode(size + header, at);
        node := at;
      }
    }

    /**
      `apr_bucket_alloc`: memory of at least the size asked for, clear of everything handed out before.
      The caller gets the address after the header of the node. The allocator underneath is asked only for
      large requests, and for small ones when the free list is empty and the active block full; there is
      no memory only if it is asked and has none. The node that was freed last is handed out first.
     */
    method Alloc(size: nat, at: int) returns (mem: int, ghost node: int)
      requires Valid() && (at == NULL || Unused(regions, at, Asks(size)))
      modifies this
      ensures Valid()
      ensures mem == NULL <==> at == NULL && old(Needs(size))
      ensures regions.Keys == old(regions).Keys + (if mem != NULL && old(Needs(size)) then {at} else {})
      ensures size + header <= small && old(free) != [] ==> old(free) == [node] + free
      ensures size + header <= small && old(free) == [] && mem != NULL ==>
        && node == (if old(BlockFull()) then at else old(regions[blocks[0]].avail))
        && regions[blocks[0]].avail == node + small
      ensures mem == NULL ==> live == old(live)
      ensures mem != NULL ==> mem == node + header && node !in old(live) && live == old(live)[node := size]
      ensures mem != NULL ==>
        forall n :: n in old(live) ==> PayloadsClear(header, node, size, n, live[n])
    {
      var found := NodeFor(size, at);
      node := found;
      ghost var live' := if node == NULL then live else live[node := size];
      LiveAfter(header, old(nodes), old(free), live, nodes, free, node, size, live');
      live := live';
      if found == NULL {
        mem := NULL;
      } else {
        LiveClear(header, small, regions, blocks, nodes, free, live, node);
        NodePositive(small, regions, blocks, nodes, node);
        mem := found + header;
      }
    }

    method FreeSmall(node: int)
      requires Sound() && node in nodes && node !in free && nodes[node].size == small
      modifies this`next, this`free, this`freelist
      ensures Sound() && free == [node] + old(free)
    {
      NodePositive(small, regions, blocks, nodes, node);
      var next' := next[node := freelist];
      PushOk(small, nodes, next, freelist, free, node);
      next, freelist := next', node;
      free := [node] + free;
    }

    method FreeLarge(node: int)
      requires Sound() && node in nodes && node !in free && nodes[node].size != small
      modifies this`regions, this`nodes
      ensures regions == old(regions) - {old(nodes[node].memnode)}
      ensures Sound() && nodes == old(nodes) - {node}
    {
      var regions', nodes' := regions - {nodes[node].memnode}, nodes - {node};
      DropOk(small, regions, blocks, nodes, node);
      FreeFrame(small, nodes, nodes', next, freelist, free);
      regions, nodes := regions', nodes';
    }

    method FreeNode(node: int)
      requires Valid() && node in live
      modifies this
      ensures Valid() && live == old(live) - {node}
      ensures if old(nodes)[node].size == small then free == [node] + old(free) && regions == old(regions)
              else free == old(free) && regions == old(regions) - {old(nodes)[node].memnode}
    {
      if nodes[node].size == small {
        FreeSmall(node);
      } else {
        FreeLarge(node);
      }
      ghost var live' := live - {node};
      LiveWithout(header, old(nodes), old(free), live, nodes, free, node, live');
      live := live';
    }

    /** `apr_bucket_free` of something handed out: it alone ceases to be live. */
    method Free(mem: int, ghost node: int)
      requires Valid() && node in live && mem == node + header
      modifies this
      ensures Valid() && live == old(live) - {node}
      ensures if old(nodes)[node].size == small then free == [node] + old(free) && regions == old(regions)
              else free == old(free) && regions == old(regions) - {old(nodes)[node].memnode}
    {
      var at := mem - header;
      FreeNode(at);
    }

    /** A small node that was freed is the next one handed out, and nobody is asked for memory. */
    method FreeThenAlloc(mem: int, ghost node: int, size: nat) returns (mem': int)
      requires Valid() && node in live && nodes[node].size == small && mem == node + header && size + header <= small
      modifies this
      ensures Valid() && mem' == mem && live == old(live)[node := size]
      ensures regions.Keys == old(regions).Keys && free == old(free)
    {
      Free(mem, node);
      ghost var found;
      ghost var free1 := free;
      mem', found := Alloc(size, NULL);
      SameHead(node, old(free), found, free, free1);
      SameKey(old(live), node, size);
    }
  }

  lemma {:induction false} SameHead(x: int, a: seq<int>, y: int, b: seq<int>, all: seq<int>)
    requires all == [x] + a && all == [y] + b
    ensures x == y && a == b
  {
    assert a == all[1..] && b == all[1..];
  }

  lemma {:induction false} SameKey(live: map<int, nat>, n: int, size: nat)
    ensures (live - {n})[n := size] == live[n := size]
  {
  }

  lemma {:induction false} LiveAfter(header: nat, nodes: map<int, Header>, free: seq<int>, live: map<int, nat>,
                  nodes': map<int, Header>, free': seq<int>, node: int, size: nat, live': map<int, nat>)
    requires LiveOk(header, nodes, free, live)
    requires node != NULL ==> node in nodes' && node !in free' && size + header <= nodes'[node].size
    requires node != NULL ==> node in free || node !in nodes
    requires forall n :: n in nodes ==> n in nodes' && nodes'[n] == nodes[n]
    requires forall n :: n in nodes' ==> n in nodes || (n == node && node != NULL)
    requires forall n :: n in free' <==> n in free && (n != node || node == NULL)
    requires live' == if node == NULL then live else live[node := size]
    ensures LiveOk(header, nodes', free', live') && (node != NULL ==> node !in live)
  {
  }

  lemma {:induction false} LiveWithout(header: nat, nodes: map<int, Header>, free: seq<int>, live: map<int, nat>,
                    nodes': map<int, Header>, free': seq<int>, node: int, live': map<int, nat>)
    requires LiveOk(header, nodes, free, live) && live' == live - {node} && node in nodes && node !in free
    requires (nodes' == nodes && free' == [node] + free) || (nodes' == nodes - {node} && free' == free)
    ensures LiveOk(header, nodes', free', live')
  {
    assert forall n :: n in [node] + free <==> n == node || n in free;
  }

  /** The memory after the headers of two nodes does not overlap. */
  predicate PayloadsClear(header: nat, n: int, nSize: nat, k: int, kSize: nat) {
    Clear(n + header, n + header + nSize, k + header, k + header + kSize)
  }

  lemma {:induction false} NodePositive(small: nat, regions: map<int, Region>, blocks: seq<int>,
                                        nodes: map<int, Header>, n: int)
    requires RegionsOk(regions, blocks) && NodesOk(small, regions, blocks, nodes) && n in nodes
    ensures NULL < n
  {
    assert NodeOk(small, regions, blocks, n, nodes[n]);
    assert RegionOk(regions[nodes[n].memnode]);
  }

  lemma {:induction false} LiveClear(header: nat, small: nat, regions: map<int, Region>, blocks: seq<int>,
                                     nodes: map<int, Header>,
                  free: seq<int>, live: map<int, nat>, node: int)
    requires NodesOk(small, regions, blocks, nodes) && LiveOk(header, nodes, free, live) && node in live
    ensures forall n :: n in live && n != node ==> PayloadsClear(header, node, live[node], n, live[n])
  {
    forall n | n in live && n != node ensures PayloadsClear(header, node, live[node], n, live[n]) {
      assert Disjoint(small, node, nodes[node], n, nodes[n]);
    }
  }
}
