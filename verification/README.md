# ODBCDNS and apr-util, verified

ODBCDNS is a small DNS server that answers from a database, with a copy of apr-util beside it. This
project models the parts of both that are hardest to get right and proves what they promise:

- **Bucket brigades** (`apr-util/buckets`). A brigade is a ring of buckets that stands for one byte
  stream. Buckets share reference-counted blocks, reads turn buckets into others and grow the ring,
  writes append in place when the count allows it. `Buckets`, `BucketSteps` and `BucketRuns` state what
  each operation does to a memory with any number of brigades and prove it for all runs; `Store`,
  `Brigade`, `BrigadeWrites`, `BrigadeLines` and `BrigadeReads` are the operations of `apr_brigade.c`,
  each proved to change the stream as it says and nothing else. `PoolBuckets` and `PoolRuns` are heap and
  pool buckets once more, with their pointers, pools that go away and registered cleanups; they refine
  `BucketRuns`, where a pool block only changes from one storage to the other; `PoolEnds` says how their runs
  can end. `BucketAllocator` is the allocator underneath, with addresses.
- **Hook ordering** (`apr-util/hooks`). `HookOrder` is the search of `tsort` as a machine, `HookSort` the
  sort in its arrays.
- **DNS** (`DNS`). `DnsNames` reads names as sections 3.1 and 4.1.4 of RFC 1035 say, `DnsEncode` and
  `DnsDecode` are the two functions of `DNSUtil.cpp`, `DnsQuad` the addresses, `DnsRecords`, `DnsRoom`
  and `DnsResolver` the records that answer a question and the room they are given, `DnsLimits` inputs at which that
  is felt, `DnsCache` the records read back.
- **Request queue** (`ODBCDNS/DNSServer.cpp`). `RequestQueue` is a machine whose steps are the actions of
  the receiving thread and of any number of workers; `RequestLiveness` proves that every request is answered,
  `RequestCaching` which responses are cached.
- **Digests, codes and passwords** (`apr-util/crypto`, `apr-util/encoding`). `Digest`, `Md5` and `Sha1`
  prove that streaming does not show in a digest; `Base64`, `BlowfishKey`, `Bcrypt` and `Passwords` the
  round trips. The round functions are parameters.
- **Prepared statements** (`apr-util/dbd`). `DbdPrepare` and `DbdPgsql` prove that two passes over a query
  and the binder agree.

`Bytes` and `Distinctness` hold what several modules need.

## How to read the model

Integers are unbounded in Dafny; where the source's width matters the model says so (`% 0x1_0000_0000`,
`% 256`, `bv32`). Bytes are numbers from 0 to 255; that `decodeName` works on signed characters is written
out in `DnsNames.CodeTarget`. C strings are sequences without their NUL. Objects that the source updates in
place are classes; arrays are arrays; loops are loops, proved against functions or predicates about which
the lemmas speak.

What comes from outside is left open: a read from a pipe or a file delivers any number of bytes, or fails if
`Store.faults` says so, a flush callback takes any number of buckets from the front, whole or in part, memory comes from any place that is
not in use, the crude order of hooks is any sorted permutation, block transforms and ciphers are any functions.

Some predicates are wrapped in a quantifier over one value (`forall n {:trigger ..} :: n == .. ==> ..`). It means
nothing more than the predicate at that value; the verifier opens it only where the predicate is named.

Properties that do not hold of the code on all inputs are stated with the exact condition, and with an input for
which they fail:

- `HookOrder.SortsIffAcyclic`: on a cycle the search goes on for ever, and the assertion meant for that case is
  never reached (`HookOrder.CycleSearches`).
- `DnsNames.ReadersAgreeIff`: pointers as `decodeName` computes them (`DnsNames.ReadersDiffer`).
- `DnsDecode.RunsOnIffTrapped`: when `decodeName` does not return (`DnsDecode.SelfPointerRunsOn`).
- `DnsEncode.PiecesAreLabels`: labels of 256 bytes or more (`DnsEncode.LongLabelLost`); names of up to 255 bytes,
  which is what the callers pass, have none (`DnsEncode.ShortNamesCut`).
- `DnsRecords.FieldLength`: the bytes that `decodeName` reports (`DnsRecords.FieldShorter`).
- `DnsResolver.Resolver.ExtractQuery`: type and class of a question (`DnsLimits.TypeMisread`).
- `DnsResolver.Resolver.ResolveA`: `memcpy_s` refuses the record that reaches the limit, which ends the process
  (`DnsLimits.NotSent`); that record leaves the packet (`DnsLimits.BufferLeft`); and if neither happens, the count of
  the truncated response is one short (`DnsLimits.CountedShort`).
- `DnsResolver.Resolver.Respond`: a datagram that is cut without a mark (`DnsLimits.CutUnmarked`).
- `DnsCache.ReadBack`: records that the code wrote and cannot read (`DnsCache.AliasLost`).
- `DnsQuad.TextOfAddress`: addresses that are printed back (`DnsQuad.ZeroDropped`).
- `Digest.CountAdds` and `Md5.StopsIff`: 32-bit lengths (`Digest.CountLost`, `Md5.WrapsWithOne`).
- `DbdPgsql.AlignedIff`: large objects without data (`DbdPgsql.Misaligned`).
- `DbdPgsql.Bind`: large objects without a length (`DbdPgsql.LengthAbsent`).

## Model

| member | source | states |
|---|---|---|
| `BucketSteps.CreateSound` | apr-util/buckets/apr_buckets_simple.c:56-119 | a bucket over memory it does not own, or over a pipe, is added: sound states stay sound and no other bucket's bytes change |
| `BucketSteps.CreateSharedSound` | apr-util/buckets/apr_buckets_refcount.c:51-64 | a new block with reference count 1 and its first bucket; the bucket denotes the slice it was made for, all else is kept |
| `BucketSteps.CopySound` | apr-util/buckets/apr_buckets_refcount.c:33-42 | a copy denotes the same bytes, shares the block, and the count goes up with it |
| `BucketSteps.SplitSound` | apr-util/buckets/apr_buckets_refcount.c:19-31 | the two parts denote the bytes before and after the point; counts stay exact and other buckets are kept |
| `BucketSteps.DestroySound` | apr-util/buckets/apr_buckets_refcount.c:44-49 | a bucket goes, its block is given back with its last bucket, no other bucket's bytes change |
| `BucketSteps.CleanPoolSound` | apr-util/buckets/apr_buckets_pool.c:21-43 | cleaning up a pool changes nothing that a bucket reads; with the pointers, that is `PoolRuns.EventSound` |
| `BucketSteps.ReadPoolSound` | apr-util/buckets/apr_buckets_pool.c:45-62 | reading a pool bucket, before or after the clean-up, keeps its bytes; with the pointers, that is `PoolRuns.ReadMeets` |
| `BucketSteps.ReadPipeSound` | apr-util/buckets/apr_buckets_pipe.c:19-76 | the bucket becomes a heap bucket with what was read and a new pipe bucket stands for the rest; together they denote what the pipe bucket did |
| `BucketSteps.ReadFileSound` | apr-util/buckets/apr_buckets_file.c:75-154 | the same for a file, whose shared reference passes to the new bucket |
| `BucketSteps.AppendSound` | apr-util/buckets/apr_brigade.c:442-484 | appending in place at reference count 1 adds to that bucket and leaves every other bucket's bytes alone |
| `BucketRuns.ApplySound` | apr-util/buckets/apr_buckets_refcount.c:19-64 | every enabled operation keeps the invariant and touches only its own buckets |
| `BucketRuns.RunSound` | apr-util/buckets/apr_buckets_refcount.c:19-64 | so does every run of operations |
| `BucketRuns.CountsExact` | apr-util/buckets/apr_buckets_refcount.c:19-64 | in every reachable state a block is there exactly while buckets refer to it, and its count is their number |
| `BucketRuns.AppendPrivate` | apr-util/buckets/apr_brigade.c:442-484 | in every reachable state an in-place append changes one bucket's bytes and no other's |
| `BucketRuns.ReleasedWithLast` | apr-util/buckets/apr_buckets_refcount.c:44-49 | a block is given back by the step in which its last sharer goes, and by no other; descriptor and data apart are in `PoolRuns.DestroyFrees` |
| `BucketRuns.ReleasedStays` | apr-util/buckets/apr_buckets_heap.c:31-39 | what was given back is never given back again and never returns |
| `PoolBuckets.FireLinked` | apr-util/buckets/apr_buckets_pool.c:21-43 | a cleanup that is registered finds its descriptor and, behind `base`, its data; afterwards the data are behind `heap.base`, and every other pointer is still right |
| `PoolRuns.ReadMeets` | apr-util/buckets/apr_buckets_pool.c:45-62 | whichever of the two pointers a pool or heap bucket is read through, it is not NULL, the memory is there, and the bytes are those of the bucket |
| `PoolRuns.DestroyDrops` | apr-util/buckets/apr_buckets_pool.c:64-91 | both ways to destroy a bucket take away one reference; the last one kills the cleanup, or frees the data, and frees the descriptor |
| `PoolRuns.EventSound` | apr-util/buckets/apr_buckets_pool.c:21-120 | no event is undefined in a sound state, soundness is kept, and without the pointers the event is the operation of `BucketRuns` or nothing |
| `PoolRuns.NeverUndefined` | apr-util/buckets/apr_buckets_pool.c:21-120 | in every run, with pools created and destroyed at any time, nothing uses NULL, freed memory, memory of a pool that is gone or a freed descriptor |
| `PoolRuns.ReadsSame` | apr-util/buckets/apr_buckets_pool.c:21-62 | in every run a bucket reads the same bytes before and after whatever is not its own split, append or end: also the cleanup of its pool and the end of the pool's memory |
| `PoolRuns.FreedOnce` | apr-util/buckets/apr_buckets_pool.c:64-120 | in every run descriptors and data are each freed once at most and none is lost; a cleanup is registered, once, exactly for each descriptor that is still in its pool |
| `PoolRuns.DestroyFrees` | apr-util/buckets/apr_buckets_pool.c:64-91 | the end of the last bucket frees the descriptor, and the data exactly when they have left the pool; no other frees anything, and no cleanup is left for what was freed |
| `PoolEnds.PoolsGoFirst` | apr-util/buckets/apr_buckets_pool.c:21-62 | from every reachable state all pools can be destroyed before the buckets made of their memory, and every bucket then reads the bytes it read before |
| `PoolEnds.AllGivenBack` | apr-util/buckets/apr_buckets_pool.c:64-120 | from every reachable state the buckets and then the pools can be destroyed; no bucket, descriptor, data, cleanup or pool memory is left, and every descriptor was freed |
| `Rings.OthersKept` | apr-util/buckets/apr_brigade.c:104-607 | whatever is done to one brigade, another over the same memory keeps its ring and its bytes |
| `Stores.Store.Read` | apr-util/buckets/apr_buckets_pipe.c:19-76 | reading any bucket returns its bytes and unfolds it into buckets that denote what it did, at most a buffer of a pipe or a file; it fails exactly when the bucket is a pipe or a file and the system does, and a failure changes nothing |
| `Stores.Store.Split` | apr-util/buckets/apr_buckets_simple.c:28-46 | splitting succeeds exactly for buckets with a known length at a point within it; pipes and metadata cannot be split |
| `Stores.Store.NewBucket` | apr-util/buckets/apr_buckets_heap.c:43-87 | a new bucket that denotes the string, transient or copied |
| `Stores.Store.Extend` | apr-util/buckets/apr_brigade.c:481-483 | the copy to the end of a bucket that is not shared |
| `Brigades.Brigade.constructor` | apr-util/buckets/apr_brigade.c:56-69 | an empty ring |
| `Brigades.Brigade.Partition` | apr-util/buckets/apr_brigade.c:104-188 | the stream is unchanged; on success exactly `point` bytes lie before the returned bucket; an I/O error is returned exactly when a read failed, and the bucket there is a pipe; when none failed, it succeeds exactly for a point from 0 to the length of the stream; a negative point is invalid, incomplete is a shorter stream; the walk ends although reads grow the ring |
| `Brigades.Brigade.WalkToPoint` | apr-util/buckets/apr_brigade.c:128-187 | the loop, with the remaining stream and the remaining ring as its measure |
| `Brigades.Brigade.TryCut` | apr-util/buckets/apr_brigade.c:136-179 | one bucket of the walk: passed, split at the point, or read first because its length is unknown; it fails exactly when that read does, and only a pipe is read |
| `BrigadeWrites.Flush` | apr-util/buckets/apr_brigade.c:451-459 | any callback that passes bytes on from the front, buckets whole or in part, keeps output and brigade together unchanged |
| `BrigadeWrites.Write` | apr-util/buckets/apr_brigade.c:429-486 | flushed output followed by the brigade grows by exactly the string, on every path; the callback is called, once, exactly when the string is longer than the room at the end, and its answer returned; otherwise the string goes into the last bucket or one new buffer, whose room shrinks by it |
| `BrigadeWrites.Writev` | apr-util/buckets/apr_brigade.c:488-607 | the same for the concatenation of the vectors, the callback being called exactly when they take more than 8000 bytes or than the room at the end; the status is a failure exactly when that call failed; all vectors are written unless it fails for data of up to 8000 bytes, and then the most of them that fit the last bucket |
| `BrigadeWrites.WritevSmall` | apr-util/buckets/apr_brigade.c:530-607 | the paths for data that fits one buffer: all into the last bucket, or split between it and a new one |
| `BrigadeWrites.Gather` | apr-util/buckets/apr_brigade.c:543-602 | the copied vectors are a run of the array, within the room, as many as fit, and all of the rest if that fits |
| `BrigadeWrites.Vputstrs` | apr-util/buckets/apr_brigade.c:389-420 | any number of strings, in batches of eight, are appended in order, all of them unless a flush fails, which the status tells |
| `BrigadeLines.SplitLine` | apr-util/buckets/apr_brigade.c:304-354 | bytes and order are conserved across both brigades; what moved ends at its only LF, or has none and then the source is empty or the limit reached; in the brigade as it was, what moved before the last piece is less than `maxbytes`, and that piece is from one bucket: from its beginning, or at most a buffer of one that has to be read; unless the source was empty a bucket is taken or bytes move; the status is an error exactly when a read failed |
| `BrigadeLines.LeftNext` | apr-util/buckets/apr_brigade.c:311-351 | after each round the source is the old brigade from some bucket on, or the rest of a bucket that has to be read and the buckets behind it |
| `BrigadeLines.TakeRead` | apr-util/buckets/apr_brigade.c:315-349 | a bucket is split after the LF, moved, or copied when small, with the same effect on the streams |
| `BrigadeReads.TotalLength` | apr-util/buckets/apr_brigade.c:190-221 | the length of the stream; without reading, -1 exactly when a bucket's length is unknown; an error exactly when a read fails, with the bytes before the bucket that could not be read |
| `BrigadeReads.Flatten` | apr-util/buckets/apr_brigade.c:223-266 | the buffer holds the first bytes of the stream, as many as fit, and is otherwise as it was; an error exactly when a read fails, before the buffer is full |
| `BrigadeReads.Cleanup` | apr-util/buckets/apr_brigade.c:37-48 | every bucket of the brigade is gone and the ring is empty |
| `BrigadeReads.SplitFrom` | apr-util/buckets/apr_brigade.c:71-96 | the ring is cut in two that share no bucket and denote the stream one after the other; a brigade that receives the second is emptied first |
| `BucketAllocator.BucketAlloc.constructor` | apr-util/buckets/apr_buckets_alloc.c:89-107 | one block, an empty free list, nothing handed out |
| `BucketAllocator.BucketAlloc.Alloc` | apr-util/buckets/apr_buckets_alloc.c:124-167 | what is handed out is as large as asked for, overlaps nothing that is live, and the invariant of free list, nodes and blocks holds; the allocator underneath is asked exactly for large requests and for small ones when the free list is empty and the block full, and NULL is returned exactly when it is asked and has nothing; the node freed last is reused first |
| `BucketAllocator.BucketAlloc.NodeFor` | apr-util/buckets/apr_buckets_alloc.c:131-166 | the node comes from the free list, from the front block, from a new block or from memory of its own; no other node changes |
| `BucketAllocator.BucketAlloc.Free` | apr-util/buckets/apr_buckets_alloc.c:189-202 | a live node goes back: a small one to the front of the free list, a large one with its memory to the allocator underneath |
| `BucketAllocator.BucketAlloc.FreeThenAlloc` | apr-util/buckets/apr_buckets_alloc.c:124-202 | a small node that was freed is what the next small request gets, also when there is no more memory |
| `BucketAllocator.LiveClear` | apr-util/buckets/apr_buckets_alloc.c:124-202 | in every valid state live payloads are pairwise disjoint |
| `HookOrder.RunKeepsInv` | apr-util/hooks/apr_hooks.c:139-185 | in every configuration of every run the order so far has no repetition, respects the constraints and displaces as little as it must |
| `HookOrder.SearchEnds` | apr-util/hooks/apr_hooks.c:139-185 | without cycles the search reaches a full order from every configuration |
| `HookOrder.OrderExcludesCycles` | apr-util/hooks/apr_hooks.c:139-185 | an order that respects all constraints shows that there is no cycle |
| `HookOrder.SortsIffAcyclic` | apr-util/hooks/apr_hooks.c:145-182 | the sort ends exactly when the constraints are acyclic; otherwise it searches for ever; its assertion against loops is never reached |
| `HookOrder.CycleSearches` | apr-util/hooks/apr_hooks.c:145-182 | two items that each have to run before the other: the search never ends |
| `HookOrder.CrudeOrderKept` | apr-util/hooks/apr_hooks.c:145-182 | when the crude order satisfies every constraint, the output is the crude order |
| `HookSort.Prepare` | apr-util/hooks/apr_hooks.c:83-128 | the predecessor arrays hold exactly the constraints that the names state, each once, and the counts are those of the slots set |
| `HookSort.AddPredecessor` | apr-util/hooks/apr_hooks.c:99-124 | a predecessor is added unless it is there |
| `HookSort.DropPredecessor` | apr-util/hooks/apr_hooks.c:175-181 | the slots of an emitted item become NULL and the counts follow |
| `HookSort.FindReady` | apr-util/hooks/apr_hooks.c:148-168 | the index-jumping search makes the moves of the machine and ends at an item that is ready |
| `HookSort.TSort` | apr-util/hooks/apr_hooks.c:139-185 | the linked list is NULL-terminated, holds each item once, respects the constraints, displaces least, and is the order of the machine |
| `HookSort.OrderServes` | apr-util/hooks/apr_hooks.c:139-216 | such an order puts every named predecessor before and every named successor after its hook |
| `HookSort.SortHook` | apr-util/hooks/apr_hooks.c:187-216 | the result is a permutation of the hooks that serves every constraint that a name states |
| `DnsNames.DottedLabels` | DNS/DNSUtil.cpp:82-124 | a name is its labels with dots between them |
| `DnsNames.TargetsAgree` | DNS/DNSUtil.cpp:45-49 | the offset of a pointer is computed as the RFC says exactly when its low byte is below 128 or the six bits above it are set |
| `DnsNames.ReadersAgree` | DNS/DNSUtil.cpp:41-76 | when every pointer that is met from an offset on means the same to both, the code reads the name of the RFC, or none as it does |
| `DnsNames.ReadersAgreeIff` | DNS/DNSUtil.cpp:41-76 | at the first pointer that is met and means something else, they read the same name exactly when the names at the two offsets are the same |
| `DnsNames.ReadersDiffer` | DNS/DNSUtil.cpp:45-50 | a packet with a pointer to offset 128 and a name there, which the code does not read |
| `DnsNames.NamesUnique` | DNS/DNSUtil.cpp:29-80 | bytes stand for one name at most |
| `DnsNames.WireExpands` | DNS/DNSUtil.cpp:29-80 | a full wire form anywhere in a packet is read as its labels, by the RFC and by the code |
| `DnsNames.EndlessIffLoops` | DNS/DNSUtil.cpp:45-50 | pointers are followed for ever exactly when a chain of them comes back to where it has been |
| `DnsNames.BackwardEnds` | DNS/DNSUtil.cpp:45-50 | if every pointer that is followed from an offset goes strictly backward, they do not |
| `DnsEncode.EncodeName` | DNS/DNSUtil.cpp:82-124 | the pieces of the name that the code takes for its labels are written in wire form, nothing else, and their number of bytes is reported, for every name, buffer and room; otherwise a label is refused or the buffer left, whichever comes first |
| `DnsEncode.NameEventIs` | DNS/DNSUtil.cpp:102-121 | a name is written exactly when its wire form fits the buffer and no label is longer than the room that `memcpy_s` is told; a refusal or an overrun has that reason |
| `DnsEncode.PiecesAreLabels` | DNS/DNSUtil.cpp:105-120 | these pieces are the labels of the name exactly when no label has 256 bytes or more |
| `DnsEncode.ShortNamesCut` | DNS/DNSUtil.cpp:105-120 | names of up to 255 bytes have no label that is cut |
| `DnsEncode.LongLabelLost` | DNS/DNSUtil.cpp:105-120 | a label of 256 bytes is written as an empty one |
| `DnsEncode.WireOfName` | DNS/DNSUtil.cpp:82-124 | for such a name the wire form is that of the RFC and has two bytes more than the name |
| `DnsDecode.RunsOnIffTrapped` | DNS/DNSUtil.cpp:41-75 | the decoder never returns exactly when, before its buffer is full, it comes to pointers that loop |
| `DnsDecode.BackwardReturns` | DNS/DNSUtil.cpp:41-75 | it returns if every pointer that it comes to goes strictly backward |
| `DnsDecode.SelfPointerRunsOn` | DNS/DNSUtil.cpp:45-50 | a pointer to itself is followed for ever |
| `DnsDecode.ReadName` | DNS/DNSUtil.cpp:41-79 | the loop, with the buffer left and the pointers to follow as its measure |
| `DnsDecode.DecodeName` | DNS/DNSUtil.cpp:29-80 | it decodes exactly the terminated bytes that expand to a name other than the root that fits; the buffer then holds the dotted name and its NUL, and the count is the name's length plus two |
| `DnsDecode.WireReadable` | DNS/DNSUtil.cpp:29-80 | a name of 1 to 63 byte labels and up to 254 bytes, in wire form, is terminated, ends the decoder and stands for that name only |
| `DnsDecode.RoundTrip` | DNS/DNSUtil.cpp:29-124 | what was encoded anywhere in a packet decodes to itself, and both report the same count |
| `DnsQuad.AddressOfText` | DNS/DNSRDataA.cpp:28-81 | every address is read back from its text |
| `DnsQuad.TextOfAddress` | DNS/DNSRDataA.cpp:28-81 | a text of up to 15 characters is printed back exactly when it has four parts without leading zeros, each below 256 |
| `DnsQuad.ZeroDropped` | DNS/DNSRDataA.cpp:28-81 | `01.2.3.4` is not printed back |
| `DnsQuad.ParseQuad` | DNS/DNSRDataA.cpp:28-46 | the four bytes of a dotted quad of up to 15 characters |
| `DnsQuad.PrintQuad` | DNS/DNSRDataA.cpp:56-81 | the text and its NUL fit into 16 bytes and no step asks for more room than is left |
| `DnsRecords.DenotesUnique` | DNS/DNSResourceRecord.cpp:80-139 | bytes are read as one sequence of answers only, of whatever number |
| `DnsRecords.DenotesAppend` | DNS/DNSResourceRecord.cpp:43-78 | bytes written after a message change none of its answers |
| `DnsRecords.CutCarries` | ODBCDNS/DNSServer.cpp:295-298 | a message that is cut still holds its answers exactly when nothing was cut off |
| `DnsRecords.RecordReads` | DNS/DNSResourceRecord.cpp:43-78 | a record, with its name in full or as a pointer, is read per section 4.1.4 of RFC 1035 as its row |
| `DnsRecords.RecordLocates` | DNS/DNSResolver.cpp:127-131 | after a record every entry of `pointerLocations` is still the offset of a full wire form of its name, the new one too |
| `DnsRecords.FieldLength` | DNS/DNSUtil.cpp:59-79 | the count of `decodeName` is the length of the name in the packet exactly when the name does not end in a pointer |
| `DnsRecords.FieldShorter` | DNS/DNSUtil.cpp:59-79 | a name of four bytes in the packet for which five are reported |
| `DnsRecords.DecodeOwner` | DNS/DNSResourceRecord.cpp:80-108 | the name of a record is decoded when it can be; the record then goes on at the right place exactly when its name is a pointer or has none |
| `DnsResolver.ReplyDenotes` | DNS/DNSResolver.cpp:93-148 | a message followed by the records of the rows is read as the rows, in order |
| `DnsResolver.Resolver.Clean` | DNS/DNSResolver.cpp:303-305 | no places are known |
| `DnsRoom.RecordEventIs` | DNS/DNSResourceRecord.cpp:43-78 | a record is written exactly when it fits the buffer and neither pointer, address, fixed part nor a label is longer than the room told for it, a negative room being no limit |
| `DnsRoom.WithinNotRefused` | DNS/DNSResourceRecord.cpp:43-78 | a record that takes no more than the room is not refused in any part |
| `DnsResolver.Resolver.ExtractQuery` | DNS/DNSResolver.cpp:213-229 | one question in full: its name, its length, its name's place, and type and class, which are those asked for exactly when their high bytes extend the low ones |
| `DnsResolver.Resolver.EncodeRecord` | DNS/DNSResourceRecord.cpp:43-78 | exactly the bytes of the record are written, in network order, and their number returned, unless `memcpy_s` refuses a part or the buffer is left, for every buffer and room |
| `DnsResolver.Resolver.WriteRow` | DNS/DNSResolver.cpp:93-131 | one row: its record, and the place of the name an alias brings |
| `DnsResolver.Resolver.WriteAnswers` | DNS/DNSResolver.cpp:93-148 | records are written until they take 500 bytes or more, and are counted in 16 bits; the loop stops early only at a record that is refused or leaves the buffer |
| `DnsResolver.Resolver.ResolveA` | DNS/DNSResolver.cpp:93-148 | it comes to an end exactly when the last record that is written stays within the packet and is not refused; then what was in the packet before is kept, and truncation happens exactly when the records take 500 bytes or more; otherwise the answers denote the rows, in order, `answers` counts them and every `pointerLocations` entry is right; a truncated response holds the rows before the one that reached the limit, ends with them, and counts one less |
| `DnsResolver.RefusedTruncates` | DNS/DNSResolver.cpp:125-142 | nothing is refused without truncation |
| `DnsResolver.LastEventIs` | ODBCDNS/DNSServer.cpp:145-148 | of a last record that is not refused, bytes are written behind the packet exactly when the records end behind it; of one that stays within, `memcpy_s` refuses a part exactly as `DnsRoom.RecordRefused` says |
| `DnsLimits.NotSent` | DNS/DNSResourceRecord.cpp:62-73 | an alias of ten bytes and 30 addresses: the last address is refused and nothing is sent |
| `DnsLimits.BufferLeft` | ODBCDNS/DNSServer.cpp:145-148 | a question with a name of 254 bytes and aliases of 255, 215 and 255 bytes: the last one ends at 1039 of 1024 bytes |
| `DnsLimits.LongNameGood` | DNS/DNSMessage.h:24-25 | there are names of these lengths that can be written |
| `DnsResolver.FitsBuffer` | ODBCDNS/DNSServer.cpp:145-148 | a check before the call: it does not leave the 1024 bytes of the packet if question and largest record leave 499 of them |
| `DnsLimits.CountedShort` | DNS/DNSResolver.cpp:133-142 | for 32 addresses or more, 31 answers are complete and 30 are counted |
| `DnsResolver.Resolver.Respond` | ODBCDNS/DNSServer.cpp:269-298 | a datagram is sent exactly when `resolveA` comes to an end, of 512 bytes at most; it holds the rows that were written, all of them unless it is marked as truncated, exactly when question and records end within 512 bytes |
| `DnsLimits.CutUnmarked` | ODBCDNS/DNSServer.cpp:269-298 | twenty addresses after a question of 182 bytes are cut and not marked |
| `DnsLimits.TypeMisread` | DNS/DNSQuery.cpp:45-55 | type 255 is read as 65535 |
| `DnsCache.DecodeAlias` | DNS/DNSRDataCNAME.cpp:36-49 | the name of an alias, with or without a pointer in front, is decoded exactly when it is terminated and readable |
| `DnsCache.DecodeRecord` | DNS/DNSResourceRecord.cpp:80-139 | a record that `encode` wrote is decoded exactly when its pointer has a low byte below 128 and its name starts within 512 bytes; row and next offset then come back |
| `DnsCache.ReadBack` | DNS/DNSResolver.cpp:272-287 | the walk over the answers of a reply comes through exactly when this holds of every record, and has then read the rows in order |
| `DnsCache.RoundTrip` | DNS/DNSResolver.cpp:93-148 | the same for what `resolveA` wrote |
| `DnsCache.AliasLost` | DNS/DNSResourceRecord.cpp:86-95 | after a question with a name of 100 bytes an alias has its place at offset 130: what `resolveA` wrote for it and its address is not read back |
| `RequestQueue.StepKeepsInv` | ODBCDNS/DNSServer.cpp:112-322 | every action of the producer or of a worker keeps the invariant |
| `RequestQueue.CountedKept` | ODBCDNS/DNSServer.cpp:145-232 | queue length = semaphore count + workers between wait and pop + 1 while the producer is between push and release |
| `RequestQueue.QueueNotEmpty` | ODBCDNS/DNSServer.cpp:228-232 | a worker between wait and pop finds a request |
| `RequestQueue.ServerSafe` | ODBCDNS/DNSServer.cpp:112-322 | in every reachable state nothing undefined has happened, requests are taken first in first out and once, sends and frees do not repeat, and only what was sent is freed |
| `RequestQueue.TakenOnce` | ODBCDNS/DNSServer.cpp:228-298 | a request that was taken is with exactly one worker or has had its one send attempt |
| `RequestQueue.SendComes` | ODBCDNS/DNSServer.cpp:238-298 | from every reachable state, at most four steps of a worker that took a request, whether or not they fail, end with the one send of that request, and nothing undefined happens |
| `RequestQueue.NoLostWakeup` | ODBCDNS/DNSServer.cpp:145-232 | while requests wait, the semaphore is up or a worker is on its way; that they are then taken is `RequestLiveness.TakeComes` |
| `RequestLiveness.TakeComes` | ODBCDNS/DNSServer.cpp:221-232 | from every reachable state, with the semaphore up and the critical section free, four steps of a waiting worker alone take the front of the queue, whatever the others do |
| `RequestLiveness.WorkShrinks` | ODBCDNS/DNSServer.cpp:112-322 | every step other than the arrival of a datagram leaves less to do |
| `RequestLiveness.IdleAnswered` | ODBCDNS/DNSServer.cpp:112-322 | when no thread of a server with a worker can go on, the queue is empty and every request was answered |
| `RequestLiveness.EveryScheduleAnswers` | ODBCDNS/DNSServer.cpp:112-322 | from every reachable state of a server with a worker, every schedule without another datagram ends, and when no thread can go on, every request pushed before or since is answered |
| `RequestLiveness.AllAnswered` | ODBCDNS/DNSServer.cpp:112-322 | there is such a schedule from every reachable state; requests are answered once and nothing undefined happens |
| `RequestCaching.CachesWhatWasSent` | ODBCDNS/DNSServer.cpp:199-305 | in every run a worker at the head of its loop caches exactly when it has just extracted the queries, resolved them by recursion and sent the response without an error |
| `Digest.FoldConcat` | apr-util/crypto/apr_md5.c:190-273 | folding a transform over blocks may be interrupted after any block |
| `Digest.CountAdds` | apr-util/crypto/apr_md5.c:204-208 | the two-word bit count stays right exactly when the length is not cut by its cast to 32 bits |
| `Digest.CountLost` | apr-util/crypto/apr_md5.c:204-208 | an input of 2^32 bytes is not counted |
| `Digest.PadsUnique` | apr-util/crypto/apr_md5.c:288-317 | a message has one padding |
| `Digest.CountBytes` | apr-util/crypto/apr_md5.c:294-295 | the two count words, written by either digest, stand for 8 times the number of bytes modulo 2^64 |
| `Md5.StopsIff` | apr-util/crypto/apr_md5.c:214-222 | the loop's 32-bit test stops it after the last whole block exactly when the index can pass that block by 63 |
| `Md5.WrapsWithOne` | apr-util/crypto/apr_md5.c:214-222 | an input for which it cannot |
| `Md5.Context.constructor` | apr-util/crypto/apr_md5.c:145-157 | the context of the empty message |
| `Md5.Context.Update` | apr-util/crypto/apr_md5.c:190-273 | the context of the message with the input behind it |
| `Md5.Context.Final` | apr-util/crypto/apr_md5.c:288-317 | the digest of the message per section 3 of RFC 1321, said of its bytes: the padding ends with eight bytes that are 8 times the length, modulo 2^64, low byte first, and the 16 bytes are the four words of the folded state, low byte first; the context is cleared |
| `Md5.EncodeSpells` | apr-util/crypto/apr_md5.c:443-455 | `Encode` writes the four words in order, the low byte of each first |
| `Md5.DigestUnique` | apr-util/crypto/apr_md5.c:288-317 | a message has one digest |
| `Md5.DigestOf` | apr-util/crypto/apr_md5.c:145-317 | however a message is cut into updates, the digest is that of the message |
| `Sha1.ReversedReads` | apr-util/crypto/apr_sha1.c:182-202 | with the byte reversal either kind of machine reads the same words |
| `Sha1.Context.Reverse` | apr-util/crypto/apr_sha1.c:182-202 | the bytes of each word are reversed in place, on machines that need it |
| `Sha1.Context.Update` | apr-util/crypto/apr_sha1.c:220-257 | the context of the message with the input behind it |
| `Sha1.Context.Final` | apr-util/crypto/apr_sha1.c:313-345 | the digest of the message per sections 4 and 6.1 of RFC 3174, on either kind of machine, said of its bytes: the length and the five words of the folded state with the high byte first |
| `Sha1.EncodeSpells` | apr-util/crypto/apr_sha1.c:338-344 | the five words are written in order, the high byte of each first |
| `Sha1.WordsAre` | apr-util/crypto/apr_sha1.c:182-202 | the words that the transform is given are those of the block, the high byte of each first |
| `Sha1.SameCount` | apr-util/crypto/apr_sha1.c:226-230 | the other carry test of SHA-1 gives the same count |
| `Sha1.DigestOf` | apr-util/crypto/apr_sha1.c:206-345 | however a message is cut into updates, and on either kind of machine, the digest is that of the message |
| `Sha1.DigestUnique` | apr-util/crypto/apr_sha1.c:313-345 | a message has one digest |
| `Base64.EncodedLength` | apr-util/encoding/apr_base64.c:193-196 | `apr_base64_encode_len` is the length of the code and its NUL |
| `Base64.SextetsRoundTrip` | apr-util/encoding/apr_base64.c:145-268 | bytes are read back from their sextets |
| `Base64.RoundTrip` | apr-util/encoding/apr_base64.c:145-268 | decoding an encoded string gives it back, whatever lies behind its NUL |
| `Base64.Encode` | apr-util/encoding/apr_base64.c:237-268 | the code of section 4 of RFC 4648, a NUL, and `apr_base64_encode_len` as the count |
| `Base64.Decode` | apr-util/encoding/apr_base64.c:145-188 | exactly the returned number of bytes is written, below `apr_base64_decode_len`, for any terminated input |
| `BlowfishKey.SetKey` | apr-util/crypto/crypt_blowfish.c:543-642 | the expanded key is the NUL-terminated key read round and round, with or without the old sign extension; the initial key is that with the constants, bit 16 of its first word flipped exactly on a collision when asked for |
| `BlowfishKey.ReadWord` | apr-util/crypto/crypt_blowfish.c:590-609 | four bytes into the right and the sign-extended word, and the flag for extensions |
| `BlowfishKey.WordIs` | apr-util/crypto/crypt_blowfish.c:590-609 | a word as it is meant is the next four bytes of the key, the first in the highest place |
| `BlowfishKey.MaskIs` | apr-util/crypto/crypt_blowfish.c:624-628 | the branch-free mask is bit 16 exactly when the words agree, a byte was extended and safety is asked for |
| `BlowfishKey.CollidesHasOnes` | apr-util/crypto/crypt_blowfish.c:549-582 | only keys with a 0xFF byte collide |
| `BlowfishKey.Safety` | apr-util/crypto/crypt_blowfish.c:543-642 | keys for `$2a$` and `$2y$` agree but for that one bit, and differ in it exactly for colliding keys |
| `BlowfishKey.OldCollision` | apr-util/crypto/crypt_blowfish.c:611-628 | without the measure a colliding key is prepared like itself by the old algorithm |
| `BlowfishKey.NoCollision` | apr-util/crypto/crypt_blowfish.c:549-582 | with it no key, under either algorithm, is prepared like a colliding key |
| `BlowfishKey.OnesCollide` | apr-util/crypto/crypt_blowfish.c:549-582 | a key that collides |
| `Bcrypt.Encode` | apr-util/crypto/crypt_blowfish.c:409-439 | the letters of the bytes, group by group |
| `Bcrypt.Decode` | apr-util/crypto/crypt_blowfish.c:385-407 | it succeeds exactly when all letters needed are letters, and gives their bytes |
| `Bcrypt.SaltRoundTrip` | apr-util/crypto/crypt_blowfish.c:385-439 | bytes are read back from their letters |
| `Bcrypt.CodedAgain` | apr-util/crypto/crypt_blowfish.c:385-439 | letters whose last one has no unused bit set are written again from their bytes |
| `Bcrypt.SaltCanon` | apr-util/crypto/crypt_blowfish.c:766-768 | clearing the unused bits of the last letter does not change the salt |
| `Bcrypt.HashAsSetting` | apr-util/crypto/crypt_blowfish.c:644-777 | a hash used as the setting gives itself: same kind, cost and salt |
| `Bcrypt.HashHolds` | apr-util/crypto/crypt_blowfish.c:766-776 | a hash has 60 characters and holds what the cipher makes of the key and of the salt, flags and cost of the setting |
| `Bcrypt.HeaderIff` | apr-util/crypto/crypt_blowfish.c:673-681 | the headers accepted are exactly those written for the three kinds and a cost below 32 |
| `Bcrypt.NewSettingGood` | apr-util/crypto/crypt_blowfish.c:876-902 | a generated setting is accepted and holds the salt and the cost |
| `Passwords.RefineSalt` | apr-util/crypto/apr_md5.c:520-545 | the salt in a salt or in a hash: after the marker, up to a dollar, eight characters at most |
| `Passwords.Apr1SaltKept` | apr-util/crypto/apr_md5.c:520-545 | a hash passed as a salt names the salt it was made with |
| `Passwords.BcryptEncodes` | apr-util/crypto/apr_passwd.c:187-200 | a hash is made exactly for accepted costs, 16 bytes of salt, room for 61 characters and a passing self-test |
| `Passwords.BcryptHoldsSalt` | apr-util/crypto/apr_passwd.c:187-200 | the hash holds the first 16 bytes of the salt |
| `Passwords.BcryptValidates` | apr-util/crypto/apr_passwd.c:82-200 | a hash that `apr_bcrypt_encode` makes validates exactly the passwords of which the cipher makes the same with its salt, cost and flags; the others are a mismatch |
| `Passwords.HashValidates` | apr-util/crypto/apr_passwd.c:82-184 | so does a hash under any accepted `$2a$` or `$2y$` setting, with the salt, cost and flags of that setting |
| `Passwords.BcryptVerdict` | apr-util/crypto/apr_passwd.c:90-95 | any hash of this kind: an error exactly when the self-test fails or its setting is not accepted, a success exactly when it holds, in canonical letters, what the cipher makes of the password |
| `Passwords.MarkedIs` | apr-util/crypto/apr_passwd.c:89-92 | the four tests find exactly the hashes that start with `$2a$` or `$2y$` |
| `Passwords.OtherKinds` | apr-util/crypto/apr_passwd.c:105-183 | what starts with none of the markers gets the answer of the platform's `crypt` |
| `Passwords.Apr1Validates` | apr-util/crypto/apr_passwd.c:96-101 | a hash of `apr_md5_encode`, with any salt, validates exactly the passwords with the same digest text for that salt |
| `Passwords.Sha1Base64` | apr-util/crypto/apr_sha1.c:348-368 | the marker and the base 64 code of the SHA-1 digest of the password, by the code of `Sha1` and `Base64`, on either kind of machine |
| `Passwords.ShaValidates` | apr-util/crypto/apr_passwd.c:102-104 | a hash of `apr_sha1_base64` validates exactly the passwords with the digest it was made of; the others are a mismatch |
| `DbdPrepare.KindIsWord` | apr-util/dbd/apr_dbd.c:406-451 | the nested tests find the documented word that stands there, and its type |
| `DbdPrepare.KindIsString` | apr-util/dbd/apr_dbd.c:406-463 | the type is string exactly when no documented word stands there |
| `DbdPrepare.WordParsed` | apr-util/dbd/apr_dbd.c:403-465 | a documented word after a percent sign is one parameter of its type, whatever comes behind it |
| `DbdPrepare.LetterParsed` | apr-util/dbd/apr_dbd.c:454-463 | a letter at which no word stands is a parameter that is a string |
| `DbdPrepare.CountParams` | apr-util/dbd/apr_dbd.c:386-396 | the first pass counts the parameters that the second will find |
| `DbdPrepare.ReferenceFits` | apr-util/dbd/apr_dbd.c:398-400 | what is reserved for a parameter suffices for every driver's notation and every number |
| `DbdPrepare.RenderNumbers` | apr-util/dbd/apr_dbd.c:403-476 | each parameter is replaced by its reference with the next number, the rest of the query is kept |
| `DbdPrepare.DecimalValue` | apr-util/dbd/apr_dbd.c:465-466 | the digits of a number have its value and no leading zero |
| `DbdPrepare.EscapedText` | apr-util/dbd/apr_dbd.c:467-474 | a text with its percent signs doubled comes out as itself and has no parameters |
| `DbdPrepare.Rewrite` | apr-util/dbd/apr_dbd.c:403-476 | the second pass: types, number of values and the driver's query, within the buffer |
| `DbdPrepare.Prepare` | apr-util/dbd/apr_dbd.c:370-479 | both passes agree, the query and its NUL stay below `qlen`, and `nvals` is the number of values the arguments take |
| `DbdPgsql.Bind` | apr-util/dbd/apr_dbd_pgsql.c:689-718 | no value behind `nvals` is read; each argument gets the value at the binder's position, and a large object its length; `atoi` is given a NULL exactly when a large object with data has no length |
| `DbdPgsql.LengthAbsent` | apr-util/dbd/apr_dbd_pgsql.c:702-705 | a large object with data and a NULL for its length |
| `DbdPgsql.AlignedIff` | apr-util/dbd/apr_dbd_pgsql.c:689-718 | an argument gets the value at the sum of the earlier widths exactly when no earlier large object is without data |
| `DbdPgsql.Misaligned` | apr-util/dbd/apr_dbd_pgsql.c:689-718 | a large object without data, after which a string gets the length of the object |
| `DbdPgsql.BuildCommand` | apr-util/dbd/apr_dbd_pgsql.c:565-589 | the `PREPARE` command, with its list of types, and its NUL stay within the computed length |

## Left out

- `apr_brigade_insert_file`, `apr_brigade_pflatten`, `apr_brigade_to_iovec`, `apr_brigade_vprintf`: more of the same operations.
- Memory-mapped and socket buckets, `setaside`, EBCDIC and character-set conversion, allocation failure outside the bucket allocator.
- ReadFileSound: files are as long as their buckets say; the end of a file that was cut while a bucket refers to it is not modelled, because such a bucket has no defined bytes.
- Transient buckets are over memory that stays; that a caller has to set them aside in time is not modelled.
- `apr_hook_sort_all`, registration of hooks and the optional functions: bookkeeping around the sort.
- SQL, ODBC, sockets, logging, recursion to another server, and which rows a query returns: rows are any sequence of A and CNAME rows.
- ExtractQuery: questions written with a pointer, for which the code passes the address of a local variable as the packet, and packets with several questions.
- Record types other than A and CNAME.
- The inserts and deletes of `cacheResponse`, and records of other servers in it beyond the name (`DnsRecords.DecodeOwner`) and the data (`DnsCache.DecodeAlias`).
- ResolveA: the bytes behind the complete answers of a truncated response are not described.
- `shutdown` of the server and what happens to threads after it.
- Round functions of MD5, SHA-1 and Blowfish, the 1000 rounds and the text of the MD5 password digest, `crypt` of the platform, MD4, UUIDs.
- CleanPoolSound: the pointers are left to `PoolRuns.EventSound`, which refines this step.
- ReadPoolSound: so is the choice between the two pointers, to `PoolRuns.ReadMeets`.
- SortHook: without hooks `tsort` ends with a write through a NULL `pTail`; there is at least one hook here.
- Update: inputs longer than 32-bit lengths, for which `Digest.CountAdds` and `Md5.StopsIff` say what goes wrong.
- DigestOf: the same for each of the parts.
- Other drivers of `apr-util/dbd` than the PostgreSQL binder, and the binary binder.
