/** Rings of buckets over one memory: what growing, shrinking and reading them keeps. */
module Rings {
  import opened Bytes
  import opened Buckets

  ghost predicate RingOk(m: Memory, ids: seq<Id>) {
    && (forall i :: 0 <= i < |ids| ==> ids[i] in m.buckets)
    && (forall i, j :: 0 <= i < j < |ids| ==> ids[i] != ids[j])
  }

  ghost function Elems(ids: seq<Id>): set<Id> {
    set x | x in ids
  }

  ghost predicate Apart(a: seq<Id>, b: seq<Id>) {
    forall x :: x in a ==> x !in b
  }

  /** The identifiers come from another ring or are new since m0. */
  ghost predicate Sourced(ids: seq<Id>, from: seq<Id>, m0: Memory) {
    forall x :: x in ids ==> x in from || m0.next <= x
  }

  /** From the ring `ids0` in m0 work went on to the ring `ids` in m, without touching any other bucket. */
  ghost predicate Derived(m0: Memory, ids0: seq<Id>, m: Memory, ids: seq<Id>) {
    RingOk(m, ids) && Evolves(m0, m, Elems(ids0)) && Sourced(ids, ids0, m0)
  }

  lemma {:induction false} DerivedTrans(m0: Memory, ids0: seq<Id>, m1: Memory, ids1: seq<Id>, m2: Memory, ids2: seq<Id>)
    requires IdsOk(m0) && Derived(m0, ids0, m1, ids1) && Derived(m1, ids1, m2, ids2)
    ensures Derived(m0, ids0, m2, ids2)
  {
    EvolvesTrans(m0, m1, m2, Elems(ids0), Elems(ids1), Elems(ids0));
  }

  /** Whatever is done to one brigade, another one over the same memory keeps its buckets and its bytes. */
  lemma {:induction false} OthersKept(m0: Memory, ids0: seq<Id>, m: Memory, ids: seq<Id>, other: seq<Id>)
    requires IdsOk(m0) && Derived(m0, ids0, m, ids) && RingOk(m0, other)
    requires forall x :: x in other ==> x !in ids0
    ensures RingOk(m, other) && Stream(m, other) == Stream(m0, other)
    ensures forall x :: x in other ==> x !in ids
  {
    forall i | 0 <= i < |other| ensures Keeps(m0, m, other[i]) {
      assert other[i] in other;
    }
    StreamFrame(m0, m, other);
  }

  function Grown(ids: seq<Id>, i: nat, added: seq<Id>): seq<Id>
    requires i < |ids|
  {
    ids[..i] + ([ids[i]] + added) + ids[i + 1..]
  }

  /** Bucket id became bucket id followed by the new buckets `added`; together they hold the same bytes. */
  ghost predicate Unfolds(m: Memory, id: Id, m': Memory, added: seq<Id>) {
    && Evolves(m, m', {id})
    && id in m'.buckets && RingOk(m', added) && (forall x :: x in added ==> m.next <= x)
    && Content(m, id) == Content(m', id) + Stream(m', added)
  }

  lemma {:induction false} KeptStream(m: Memory, m': Memory, id: Id, ids: seq<Id>)
    requires Evolves(m, m', {id}) && RingOk(m, ids) && id !in ids
    ensures Stream(m', ids) == Stream(m, ids) && RingOk(m', ids)
  {
    forall i | 0 <= i < |ids| ensures Keeps(m, m', ids[i]) {
      assert ids[i] in ids;
    }
    StreamFrame(m, m', ids);
  }

  lemma {:induction false} ConcatOk(m: Memory, a: seq<Id>, b: seq<Id>)
    requires RingOk(m, a) && RingOk(m, b) && forall x :: x in a ==> x !in b
    ensures RingOk(m, a + b)
  {
    forall i, j | 0 <= i < j < |a + b| ensures (a + b)[i] != (a + b)[j] {
      assert i < |a| <= j ==> a[i] in a && b[j - |a|] in b;
    }
  }

  lemma {:induction false} PartsOk(m: Memory, a: seq<Id>, b: seq<Id>)
    requires RingOk(m, a + b)
    ensures RingOk(m, a) && RingOk(m, b) && forall x :: x in a ==> x !in b
  {
    forall i | 0 <= i < |a| ensures a[i] in m.buckets {
      assert (a + b)[i] == a[i];
    }
    forall j | 0 <= j < |b| ensures b[j] in m.buckets {
      assert (a + b)[|a| + j] == b[j];
    }
    forall i, j | 0 <= i < j < |a| ensures a[i] != a[j] {
      assert (a + b)[i] == a[i] && (a + b)[j] == a[j];
    }
    forall i, j | 0 <= i < j < |b| ensures b[i] != b[j] {
      assert (a + b)[|a| + i] == b[i] && (a + b)[|a| + j] == b[j];
    }
    forall i, j | 0 <= i < |a| && 0 <= j < |b| ensures a[i] != b[j] {
      assert (a + b)[i] == a[i] && (a + b)[|a| + j] == b[j];
    }
  }

  lemma {:induction false} PlaceOk(m: Memory, ids: seq<Id>, i: nat)
    requires RingOk(m, ids) && i < |ids|
    ensures RingOk(m, ids[..i]) && RingOk(m, ids[i + 1..])
    ensures ids[i] !in ids[..i] && ids[i] !in ids[i + 1..]
    ensures forall x :: x in ids[..i] ==> x !in ids[i + 1..]
  {
    assert ids == ids[..i] + ids[i..] && ids[i..] == [ids[i]] + ids[i + 1..];
    PartsOk(m, ids[..i], ids[i..]);
    PartsOk(m, [ids[i]], ids[i + 1..]);
    assert ids[i] in ids[i..];
  }

  lemma {:induction false} UnfoldsParts(m: Memory, before: seq<Id>, id: Id, after: seq<Id>, m': Memory, added: seq<Id>)
    requires IdsOk(m) && RingOk(m, before) && RingOk(m, after) && id !in before && id !in after && id in m.buckets
    requires forall x :: x in before ==> x !in after
    requires Unfolds(m, id, m', added)
    ensures RingOk(m', before + ([id] + added) + after)
    ensures Stream(m', before) == Stream(m, before)
    ensures Stream(m', [id] + added + after) == Content(m, id) + Stream(m, after)
  {
    KeptStream(m, m', id, before);
    KeptStream(m, m', id, after);
    forall x | x in before || x in after ensures x < m.next { }
    ConcatOk(m', [id], added);
    ConcatOk(m', before, [id] + added);
    ConcatOk(m', before + ([id] + added), after);
    StreamConcat(m', [id] + added, after);
    StreamConcat(m', [id], added);
    StreamOne(m', id);
  }

  lemma {:induction false} EvolvesWider(m: Memory, m': Memory, id: Id, ids: seq<Id>)
    requires Evolves(m, m', {id}) && id in ids
    ensures Evolves(m, m', Elems(ids))
  {
    forall x | x in m.buckets && x !in Elems(ids) ensures Keeps(m, m', x) {
      assert x !in {id};
    }
  }

  lemma {:induction false} GrownSourced(m: Memory, ids: seq<Id>, i: nat, added: seq<Id>)
    requires i < |ids| && forall x :: x in added ==> m.next <= x
    ensures Sourced(Grown(ids, i, added), ids, m)
  {
    var before, after := ids[..i], ids[i + 1..];
    forall x | x in Grown(ids, i, added) ensures x in ids || m.next <= x {
      assert x in before || x == ids[i] || x in added || x in after;
    }
  }

  lemma {:induction false} UnfoldsDerived(m: Memory, ids: seq<Id>, i: nat, m': Memory, added: seq<Id>)
    requires IdsOk(m) && RingOk(m, ids) && i < |ids| && Unfolds(m, ids[i], m', added)
    ensures Derived(m, ids, m', Grown(ids, i, added))
  {
    PlaceOk(m, ids, i);
    UnfoldsParts(m, ids[..i], ids[i], ids[i + 1..], m', added);
    EvolvesWider(m, m', ids[i], ids);
    GrownSourced(m, ids, i, added);
  }

  /** Reading or splitting a bucket in place: the ring grows and denotes what it did. */
  lemma {:induction false} UnfoldsStream(m: Memory, ids: seq<Id>, i: nat, m': Memory, added: seq<Id>)
    requires IdsOk(m) && RingOk(m, ids) && i < |ids| && Unfolds(m, ids[i], m', added)
    ensures Stream(m', Grown(ids, i, added)[..i]) == Stream(m, ids[..i])
    ensures Stream(m', Grown(ids, i, added)[i..]) == Stream(m, ids[i..])
  {
    var ids' := Grown(ids, i, added);
    assert ids'[..i] == ids[..i];
    assert ids'[i..] == [ids[i]] + added + ids[i + 1..];
    StreamAt(m, ids, i);
    PlaceOk(m, ids, i);
    UnfoldsParts(m, ids[..i], ids[i], ids[i + 1..], m', added);
  }

  lemma {:induction false} EvolvesNothing(m: Memory, m': Memory, ids: seq<Id>)
    requires Evolves(m, m', {})
    ensures Evolves(m, m', Elems(ids))
    ensures RingOk(m, ids) ==> RingOk(m', ids) && Stream(m', ids) == Stream(m, ids)
  {
    if RingOk(m, ids) {
      forall i | 0 <= i < |ids| ensures Keeps(m, m', ids[i]) { }
      StreamFrame(m, m', ids);
    }
  }

  /** A new bucket at the tail. */
  lemma {:induction false} TailAdded(m: Memory, ids: seq<Id>, m': Memory, id: Id)
    requires IdsOk(m) && RingOk(m, ids) && Evolves(m, m', {}) && id in m'.buckets && m.next <= id
    ensures Derived(m, ids, m', ids + [id])
    ensures Stream(m', ids + [id]) == Stream(m, ids) + Content(m', id)
  {
    EvolvesNothing(m, m', ids);
    ConcatOk(m', ids, [id]);
    StreamConcat(m', ids, [id]);
    StreamOne(m', id);
  }

  lemma {:induction false} TailStream(m: Memory, before: seq<Id>, last: Id)
    ensures Stream(m, before + [last]) == Stream(m, before) + Content(m, last)
  {
    StreamConcat(m, before, [last]);
    StreamOne(m, last);
  }

  lemma {:induction false} TailParts(m: Memory, before: seq<Id>, last: Id, m': Memory, data: seq<byte>)
    requires RingOk(m, before) && last !in before && Evolves(m, m', {last}) && last in m'.buckets
    requires Content(m', last) == Content(m, last) + data
    ensures RingOk(m', before + [last])
    ensures Stream(m', before + [last]) == Stream(m, before + [last]) + data
  {
    KeptStream(m, m', last, before);
    ConcatOk(m', before, [last]);
    TailStream(m, before, last);
    TailStream(m', before, last);
    Assoc(Stream(m, before), Content(m, last), data);
  }

  /** More bytes in the last bucket. */
  lemma {:induction false} TailExtended(m: Memory, ids: seq<Id>, last: Id, m': Memory, data: seq<byte>)
    requires IdsOk(m) && RingOk(m, ids) && ids != [] && last == ids[|ids| - 1]
    requires Evolves(m, m', {last}) && last in m'.buckets && Content(m', last) == Content(m, last) + data
    ensures Derived(m, ids, m', ids)
    ensures Stream(m', ids) == Stream(m, ids) + data
  {
    var before := ids[..|ids| - 1];
    PlaceOk(m, ids, |ids| - 1);
    TailParts(m, before, last, m', data);
    assert ids == before + [last];
    EvolvesWider(m, m', last, ids);
  }

  /** The first bucket gone. */
  lemma {:induction false} HeadRemoved(m: Memory, ids: seq<Id>, m': Memory)
    requires IdsOk(m) && RingOk(m, ids) && ids != [] && Evolves(m, m', {ids[0]})
    ensures Derived(m, ids, m', ids[1..])
    ensures Stream(m', ids[1..]) == Stream(m, ids[1..])
    ensures Stream(m, ids) == Content(m, ids[0]) + Stream(m, ids[1..])
  {
    PlaceOk(m, ids, 0);
    KeptStream(m, m', ids[0], ids[1..]);
    EvolvesWider(m, m', ids[0], ids);
  }

  lemma {:induction false} DerivedSelf(m: Memory, ids: seq<Id>)
    requires RingOk(m, ids)
    ensures Derived(m, ids, m, ids)
  {
  }

  lemma {:induction false} EvolvesMonotone(m: Memory, m': Memory, t: set<Id>, t': set<Id>)
    requires Evolves(m, m', t) && t <= t'
    ensures Evolves(m, m', t')
  {
    forall x | x in m.buckets && x !in t' ensures Keeps(m, m', x) {
      assert x !in t;
    }
  }

  /** Work on one of two rings, seen as work on both. */
  lemma {:induction false} DerivedBeside(m: Memory, a: seq<Id>, m': Memory, a': seq<Id>, o: seq<Id>)
    requires IdsOk(m) && Derived(m, a, m', a') && RingOk(m, o) && Apart(o, a)
    ensures Derived(m, o + a, m', o + a') && Derived(m, a + o, m', a' + o)
    ensures RingOk(m', o) && Apart(o, a') && Apart(a', o) && Stream(m', o) == Stream(m, o)
  {
    OthersKept(m, a, m', a', o);
    ConcatOk(m', o, a');
    ConcatOk(m', a', o);
    EvolvesMonotone(m, m', Elems(a), Elems(o + a));
    EvolvesMonotone(m, m', Elems(a), Elems(a + o));
  }

  /** Buckets that are as they were and denote the same bytes. */
  ghost predicate Kept(m: Memory, m': Memory, ids: seq<Id>) {
    forall i {:trigger Keeps(m, m', ids[i])} :: 0 <= i < |ids| ==> Keeps(m, m', ids[i])
  }

  lemma {:induction false} KeptTrans(m: Memory, m1: Memory, m2: Memory, ids: seq<Id>)
    requires Kept(m, m1, ids) && Kept(m1, m2, ids)
    ensures Kept(m, m2, ids)
  {
    forall i | 0 <= i < |ids| ensures Keeps(m, m2, ids[i]) {
      assert Keeps(m, m1, ids[i]) && Keeps(m1, m2, ids[i]);
    }
  }

  lemma {:induction false} TailKept(m: Memory, ids: seq<Id>, m': Memory)
    requires RingOk(m, ids) && ids != [] && Evolves(m, m', {ids[0]})
    ensures Kept(m, m', ids[1..])
  {
  }

  lemma {:induction false} KeptBeside(m: Memory, a: seq<Id>, m': Memory, a': seq<Id>, o: seq<Id>)
    requires Derived(m, a, m', a') && RingOk(m, o) && Apart(o, a)
    ensures Kept(m, m', o)
  {
    forall i | 0 <= i < |o| ensures Keeps(m, m', o[i]) {
      assert o[i] in o;
    }
  }
}
