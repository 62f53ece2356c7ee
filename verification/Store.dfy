/**
  The memory that brigades live in, and the bucket operations that change it in place
  (`apr_bucket_read`, `apr_bucket_split` and the makers of apr-util/buckets).
 */
module Stores {
  import opened Bytes
  import opened Buckets
  import opened BucketSteps
  import opened Rings

  datatype Status = Success | Incomplete | Invalid | NotImplemented | IoError

  /** An operation stops at the first read, or flush, that fails. */
  function Failures(status: Status): nat {
    if status == IoError then 1 else 0
  }

  lemma {:induction false} UnfoldsNothing(m: Memory, m': Memory, id: Id)
    requires Evolves(m, m', {id}) && id in m'.buckets && Content(m', id) == Content(m, id)
    ensures Unfolds(m, id, m', [])
  {
  }

  lemma {:induction false} UnfoldsOne(m: Memory, m': Memory, id: Id, added: Id)
    requires Evolves(m, m', {id}) && id in m'.buckets && added in m'.buckets && m.next <= added
    requires Content(m, id) == Content(m', id) + Content(m', added)
    ensures Unfolds(m, id, m', [added])
  {
    StreamOne(m', added);
  }

  lemma {:induction false} UnfoldsAt(m: Memory, m': Memory, id: Id, n: nat, added: seq<Id>)
    requires Morphs(m, m', id, n, added)
    ensures Unfolds(m, id, m', added)
  {
    if added == [] {
      UnfoldsNothing(m, m', id);
    } else {
      UnfoldsOne(m, m', id, m.next + 1);
    }
  }

  lemma {:induction false} Halves(s: seq<byte>, point: nat)
    requires point <= |s|
    ensures s == s[..point] + s[point..]
  {
  }

  lemma {:induction false} SplitUnfolds(m: Memory, id: Id, point: nat)
    requires Inv(m) && id in m.buckets && CanSplit(m.buckets[id], point)
    ensures var m' := BucketSteps.Split(m, id, point);
      Inv(m') && Unfolds(m, id, m', [m.next]) && point <= |Content(m, id)| && Content(m', id) == Content(m, id)[..point]
  {
    SplitSound(m, id, point);
    Halves(Content(m, id), point);
    UnfoldsOne(m, BucketSteps.Split(m, id, point), id, m.next);
  }

  /** How much a read takes: all of a bucket in memory; of the others a buffer at most, and one like it is left. */
  ghost predicate Takes(m: Memory, id: Id, m': Memory, added: seq<Id>, str: seq<byte>) {
    id in m.buckets &&
      if Fallible(m.buckets[id]) then
        && |str| <= BUFF_SIZE && |added| <= 1
        && (added != [] ==> added[0] in m'.buckets && Fallible(m'.buckets[added[0]]))
      else added == []
  }

  /** The memory all brigades of a program live in. */
  class Store {
    var mem: Memory
    /** Which of the reads that ask the system fail. */
    const faults: nat -> bool
    var asked: nat
    /** How many reads have failed. */
    ghost var failed: nat

    /** Nothing is there yet, and nothing was read. */
    constructor (pipes: map<Id, seq<byte>>, files: map<Id, seq<byte>>, faults: nat -> bool)
      ensures Inv(mem) && mem.buckets == map[] && this.faults == faults && asked == failed == 0
    {
      mem := Memory(map[], map[], pipes, files, [], 0);
      this.faults, asked, failed := faults, 0, 0;
    }

    /** `apr_bucket_read`. The buckets in `added` are to stand after the one that was read. */
    method Read(id: Id) returns (status: Status, str: seq<byte>, added: seq<Id>)
      requires Inv(mem) && id in mem.buckets
      modifies this
      ensures Inv(mem) && Unfolds(old(mem), id, mem, added)
      ensures status == Success || status == IoError
      ensures status == IoError <==> Fallible(old(mem.buckets[id])) && faults(old(asked))
      ensures asked == old(asked) + (if Fallible(old(mem.buckets[id])) then 1 else 0)
      ensures failed == old(failed) + Failures(status)
      ensures status == IoError ==> mem == old(mem) && added == [] && Fallible(mem.buckets[id])
      ensures status == Success ==> str == Content(mem, id) && !Fallible(mem.buckets[id])
      ensures added != [] ==> str != []
      ensures Takes(old(mem), id, mem, added, str)
    {
      var b := mem.buckets[id];
      var fails := Fallible(b) && faults(asked);
      asked := asked + if Fallible(b) then 1 else 0;
      if fails {
        UnfoldsNothing(mem, mem, id);
        failed := failed + 1;
        return IoError, [], [];
      }
      str, added := ReadBytes(id);
      status := Success;
    }

    method ReadBytes(id: Id) returns (str: seq<byte>, added: seq<Id>)
      requires Inv(mem) && id in mem.buckets
      modifies this`mem
      ensures Inv(mem) && Unfolds(old(mem), id, mem, added)
      ensures str == Content(mem, id) && !Fallible(mem.buckets[id])
      ensures added != [] ==> str != []
      ensures Takes(old(mem), id, mem, added, str)
    {
      var b := mem.buckets[id];
      if b.Pipe? {
        str, added := ReadFromPipe(id);
      } else if b.Shared? && b.kind == FileKind {
        str, added := ReadFromFile(id);
      } else {
        ReadPoolSound(mem, id);
        mem := ReadPool(mem, id);
        UnfoldsNothing(old(mem), mem, id);
        str, added := Content(mem, id), [];
      }
    }

    method ReadFromPipe(id: Id) returns (str: seq<byte>, added: seq<Id>)
      requires Inv(mem) && id in mem.buckets && mem.buckets[id].Pipe?
      modifies this`mem
      ensures Inv(mem) && Unfolds(old(mem), id, mem, added)
      ensures str == Content(mem, id) && !Fallible(mem.buckets[id])
      ensures added != [] ==> str != []
      ensures Takes(old(mem), id, mem, added, str)
    {
      var n: nat := *;
      var buf: seq<byte> := *;
      if !PipeDelivers(mem, id, n, buf) {
        n, buf := Min(BUFF_SIZE, |Content(mem, id)|), seq(BUFF_SIZE, _ => 0);
      }
      added := MorphPipe(id, n, buf);
      str := Content(mem, id);
      UnfoldsAt(old(mem), mem, id, n, added);
    }

    method MorphPipe(id: Id, n: nat, buf: seq<byte>) returns (added: seq<Id>)
      requires Inv(mem) && PipeDelivers(mem, id, n, buf)
      modifies this`mem
      ensures Inv(mem) && Morphs(old(mem), mem, id, n, added)
      ensures added != [] ==> n > 0
    {
      ReadPipeSound(mem, id, n, buf);
      added := PipeRest(mem, n);
      mem := ReadPipe(mem, id, n, buf);
    }

    method ReadFromFile(id: Id) returns (str: seq<byte>, added: seq<Id>)
      requires Inv(mem) && id in mem.buckets && mem.buckets[id].Shared? && mem.buckets[id].kind == FileKind
      modifies this`mem
      ensures Inv(mem) && Unfolds(old(mem), id, mem, added)
      ensures str == Content(mem, id) && !Fallible(mem.buckets[id])
      ensures added != [] ==> str != []
      ensures Takes(old(mem), id, mem, added, str)
    {
      var n: nat := *;
      if !FileDelivers(mem, id, n) {
        n := Min(BUFF_SIZE, mem.buckets[id].length);
      }
      added := MorphFile(id, n);
      str := Content(mem, id);
      UnfoldsAt(old(mem), mem, id, n, added);
    }

    method MorphFile(id: Id, n: nat) returns (added: seq<Id>)
      requires Inv(mem) && FileDelivers(mem, id, n)
      modifies this`mem
      ensures Inv(mem) && Morphs(old(mem), mem, id, n, added)
      ensures added != [] ==> n > 0
    {
      ReadFileSound(mem, id, n);
      added := FileRest(mem, mem.buckets[id], n);
      mem := ReadFile(mem, id, n);
    }

    /** `apr_bucket_transient_create`, or `apr_bucket_heap_create` without a free function, which copies. */
    method NewBucket(str: seq<byte>, transient: bool) returns (id: Id)
      requires Inv(mem)
      modifies this`mem
      ensures Inv(mem) && Evolves(old(mem), mem, {})
      ensures id in mem.buckets && old(mem).next <= id && Content(mem, id) == str
    {
      if transient {
        id := mem.next;
        CreateSound(mem, Simple(true, str, 0, |str|));
        mem := Create(mem, Simple(true, str, 0, |str|));
      } else {
        id := mem.next + 1;
        CreateSharedSound(mem, HeapKind, OnHeap(str), 0, |str|);
        mem := CreateShared(mem, HeapKind, OnHeap(str), 0, |str|);
      }
    }

    /** A heap bucket over a fresh buffer of BUFF_SIZE bytes, none of them in use. */
    method NewBuffer() returns (id: Id)
      requires Inv(mem)
      modifies this`mem
      ensures Inv(mem) && Evolves(old(mem), mem, {})
      ensures id in mem.buckets && old(mem).next <= id && Content(mem, id) == []
      ensures Writable(mem, id) && Room(mem, id) == BUFF_SIZE
    {
      var buf: seq<byte> := *;
      if |buf| != BUFF_SIZE {
        buf := seq(BUFF_SIZE, _ => 0);
      }
      id := mem.next + 1;
      CreateSharedSound(mem, HeapKind, OnHeap(buf), 0, 0);
      mem := CreateShared(mem, HeapKind, OnHeap(buf), 0, 0);
    }

    /** `memcpy` to the end of a heap bucket that is not shared. */
    method Extend(id: Id, data: seq<byte>)
      requires Inv(mem) && Writable(mem, id) && |data| <= Room(mem, id)
      modifies this`mem
      ensures Inv(mem) && Evolves(old(mem), mem, {id})
      ensures id in mem.buckets && Content(mem, id) == Content(old(mem), id) + data
      ensures BucketOk(old(mem), old(mem).buckets[id]) && mem == Append(old(mem), id, data)
    {
      AppendSound(mem, id, data);
      mem := Append(mem, id, data);
    }

    method Free(id: Id)
      requires Inv(mem) && id in mem.buckets
      modifies this`mem
      ensures Inv(mem) && Evolves(old(mem), mem, {id}) && id !in mem.buckets
    {
      DestroySound(mem, id);
      mem := Destroy(mem, id);
    }

    /** `apr_bucket_split`. */
    method Split(id: Id, point: nat) returns (status: Status, added: seq<Id>)
      requires Inv(mem) && id in mem.buckets
      modifies this`mem
      ensures Inv(mem) && Unfolds(old(mem), id, mem, added)
      ensures status == NotImplemented <==> old(mem.buckets[id]).Pipe? || old(mem.buckets[id]).Meta?
      ensures status == Success <==> CanSplit(old(mem.buckets[id]), point)
      ensures status == Success ==> Content(mem, id) == Content(old(mem), id)[..point] && |added| == 1
      ensures status != Success ==> mem == old(mem) && added == []
    {
      var b := mem.buckets[id];
      if b.Pipe? || b.Meta? || point > b.length {
        UnfoldsNothing(mem, mem, id);
        return if b.Pipe? || b.Meta? then NotImplemented else Invalid, [];
      }
      added := SplitInto(id, point);
      status := Success;
    }

    method SplitInto(id: Id, point: nat) returns (added: seq<Id>)
      requires Inv(mem) && id in mem.buckets && CanSplit(mem.buckets[id], point)
      modifies this`mem
      ensures Inv(mem) && Unfolds(old(mem), id, mem, added)
      ensures Content(mem, id) == Content(old(mem), id)[..point] && |added| == 1
    {
      SplitUnfolds(mem, id, point);
      added := [mem.next];
      mem := BucketSteps.Split(mem, id, point);
    }
  }
}
