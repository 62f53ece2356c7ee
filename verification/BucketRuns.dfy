/**
  Runs of bucket operations over any number of brigades (apr-util/buckets): the discipline of
  reference counts holds in every state that can be reached.
 */
module BucketRuns {
  import opened Bytes
  import opened Buckets
  import opened BucketSteps

  datatype Op =
    | CreateOp(b: Bucket)
    | CreateSharedOp(kind: Kind, storage: Storage, start: nat, length: nat)
    | CopyOp(id: Id)
    | SplitOp(id: Id, point: nat)
    | DestroyOp(id: Id)
    | ReadPoolOp(id: Id)
    | ReadPipeOp(id: Id, n: nat, buf: seq<byte>)
    | ReadFileOp(id: Id, n: nat)
    | AppendOp(id: Id, data: seq<byte>)
    | CleanPoolOp(k: Id)

  ghost predicate Enabled(m: Memory, op: Op) {
    match op
    case CreateOp(b) => BucketOk(m, b) && !b.Shared? && PipeFree(m, b)
    case CreateSharedOp(kind, storage, start, length) => Suits(m, kind, storage, start, length)
    case CopyOp(id) => id in m.buckets && CanCopy(m.buckets[id])
    case SplitOp(id, point) => id in m.buckets && CanSplit(m.buckets[id], point)
    case DestroyOp(id) => id in m.buckets
    case ReadPoolOp(id) => id in m.buckets && !m.buckets[id].Pipe?
    case ReadPipeOp(id, n, buf) => PipeDelivers(m, id, n, buf)
    case ReadFileOp(id, n) => FileDelivers(m, id, n)
    case AppendOp(id, data) => Writable(m, id) && |data| <= Room(m, id)
    case CleanPoolOp(k) => k in m.blocks && m.blocks[k].storage.InPool?
  }

  ghost function Apply(m: Memory, op: Op): Memory
    requires BucketsOk(m) && Enabled(m, op)
  {
    match op
    case CreateOp(b) => Create(m, b)
    case CreateSharedOp(kind, storage, start, length) => CreateShared(m, kind, storage, start, length)
    case CopyOp(id) => Copy(m, id)
    case SplitOp(id, point) => Split(m, id, point)
    case DestroyOp(id) => Destroy(m, id)
    case ReadPoolOp(id) => ReadPool(m, id)
    case ReadPipeOp(id, n, buf) => ReadPipe(m, id, n, buf)
    case ReadFileOp(id, n) => ReadFile(m, id, n)
    case AppendOp(id, data) => Append(m, id, data)
    case CleanPoolOp(k) => CleanPool(m, k)
  }

  /** The bucket an operation works on, if it changes one. */
  function Target(op: Op): set<Id> {
    match op
    case CreateOp(_) => {}
    case CreateSharedOp(_, _, _, _) => {}
    case CopyOp(_) => {}
    case SplitOp(id, _) => {id}
    case DestroyOp(id) => {id}
    case ReadPoolOp(id) => {id}
    case ReadPipeOp(id, _, _) => {id}
    case ReadFileOp(id, _) => {id}
    case AppendOp(id, _) => {id}
    case CleanPoolOp(_) => {}
  }

  /**
    No operation breaks the invariant, and none is noticed through another bucket: not the
    append in place, which is allowed when the count is one, and not the cleanup of a pool.
   */
  lemma {:induction false} ApplySound(m: Memory, op: Op)
    requires Inv(m) && Enabled(m, op)
    ensures Inv(Apply(m, op)) && Evolves(m, Apply(m, op), Target(op))
  {
    match op
    case CreateOp(b) => CreateSound(m, b);
    case CreateSharedOp(kind, storage, start, length) => CreateSharedSound(m, kind, storage, start, length);
    case CopyOp(id) => CopySound(m, id);
    case SplitOp(id, point) => SplitSound(m, id, point);
    case DestroyOp(id) => DestroySound(m, id);
    case ReadPoolOp(id) => ReadPoolSound(m, id);
    case ReadPipeOp(id, n, buf) => ReadPipeSound(m, id, n, buf);
    case ReadFileOp(id, n) => ReadFileSound(m, id, n);
    case AppendOp(id, data) => AppendSound(m, id, data);
    case CleanPoolOp(k) => CleanPoolSound(m, k);
  }

  // ----- Runs

  function Start(pipes: map<Id, seq<byte>>, files: map<Id, seq<byte>>): Memory {
    Memory(map[], map[], pipes, files, [], 0)
  }

  ghost predicate Runs(m: Memory, ops: seq<Op>, m': Memory)
    decreases |ops|
  {
    if ops == [] then m' == m
    else BucketsOk(m) && Enabled(m, ops[0]) && Runs(Apply(m, ops[0]), ops[1..], m')
  }

  lemma {:induction false} RunSound(m: Memory, ops: seq<Op>, m': Memory)
    requires Inv(m) && Runs(m, ops, m')
    ensures Inv(m')
    decreases |ops|
  {
    if ops != [] {
      ApplySound(m, ops[0]);
      RunSound(Apply(m, ops[0]), ops[1..], m');
    }
  }

  /** In every reachable state each count is the number of live buckets that refer to the block. */
  lemma {:induction false} CountsExact(pipes: map<Id, seq<byte>>, files: map<Id, seq<byte>>, ops: seq<Op>, m: Memory,
                                       k: Id)
    requires Runs(Start(pipes, files), ops, m)
    ensures k in m.blocks <==> Sharers(m.buckets, k) != {}
    ensures k in m.blocks ==> m.blocks[k].refcount == |Sharers(m.buckets, k)|
    ensures k in m.released ==> k !in m.blocks
  {
    RunSound(Start(pipes, files), ops, m);
    BlockIffShared(m, k);
  }

  /** In every reachable state the append in place is private to its bucket. */
  lemma {:induction false} AppendPrivate(pipes: map<Id, seq<byte>>, files: map<Id, seq<byte>>, ops: seq<Op>, m: Memory,
                      id: Id, data: seq<byte>, x: Id)
    requires Runs(Start(pipes, files), ops, m)
    requires Enabled(m, AppendOp(id, data)) && x in m.buckets && BucketsOk(m)
    ensures Content(Append(m, id, data), x) == if x == id then Content(m, x) + data else Content(m, x)
  {
    RunSound(Start(pipes, files), ops, m);
    AppendSound(m, id, data);
    assert x != id ==> Keeps(m, Append(m, id, data), x);
  }

  /** A block is given back by the operation that takes away its last bucket, and by no other. */
  lemma {:induction false} ReleasedWithLast(m: Memory, op: Op, k: Id)
    requires Inv(m) && Enabled(m, op) && k in m.blocks
    ensures k in Apply(m, op).blocks <==> Sharers(Apply(m, op).buckets, k) != {}
    ensures k in Apply(m, op).blocks ==> k !in Apply(m, op).released
    ensures k !in Apply(m, op).blocks ==> Apply(m, op).released == m.released + [k]
  {
    ApplySound(m, op);
    BlockIffShared(Apply(m, op), k);
    ApplyReleases(m, op);
  }

  lemma {:induction false} ApplyReleases(m: Memory, op: Op)
    requires Plain(m) && Enabled(m, op)
    ensures var m' := Apply(m, op);
      || (m'.released == m.released && forall k :: k in m.blocks ==> k in m'.blocks)
      || (exists k :: k in m.blocks && m'.released == m.released + [k] && k !in m'.blocks &&
            forall k' :: k' in m.blocks && k' != k ==> k' in m'.blocks)
  {
  }

  lemma {:induction false} BlockIffShared(m: Memory, k: Id)
    requires BucketsOk(m) && CountsOk(m)
    ensures k in m.blocks <==> Sharers(m.buckets, k) != {}
  {
    if k !in m.blocks {
      forall id | id in m.buckets ensures !Reaches(m.buckets[id], k) {
        assert BucketOk(m, m.buckets[id]);
      }
    }
  }

  /** A block that is given back stays given back: no run releases it again. */
  lemma {:induction false} ReleasedStays(m: Memory, ops: seq<Op>, m': Memory)
    requires Inv(m) && Runs(m, ops, m')
    ensures m.released <= m'.released
    ensures forall k :: k in m.released ==> k !in m'.blocks
    decreases |ops|
  {
    if ops != [] {
      ApplySound(m, ops[0]);
      var m1 := Apply(m, ops[0]);
      ApplyReleases(m, ops[0]);
      ReleasedStays(m1, ops[1..], m');
      assert forall k :: k in m.released ==> k in m1.released;
    }
  }
}
