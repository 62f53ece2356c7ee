/**
  Resource records: how section 3.2.1 of RFC 1035 reads them, and the bytes the resolver writes for the
  rows of a result (DNS/DNSResourceRecord.cpp, DNS/DNSResolver.cpp).
 */
module DnsRecords {
  import opened Bytes
  import opened DnsNames
  import opened DnsEncode
  import opened DnsDecode
  import opened DnsQuad

  const TYPE_A := 1
  const TYPE_CNAME := 5

  // ----- Reading

  datatype Data = Host(addr: seq<byte>) | Alias(name: seq<Label>)

  datatype Answer = Answer(owner: seq<Label>, rtype: int, rclass: int, ttl: int, data: Data)

  /** The offset after a name: after its pointer or after its zero. */
  function FieldEnd(p: seq<byte>, off: nat): Option<nat>
    decreases |p| - off
  {
    if off >= |p| then None
    else if p[off] >= 192 then if off + 2 <= |p| then Some(off + 2) else None
    else if p[off] > 63 then None
    else if p[off] == 0 then Some(off + 1)
    else FieldEnd(p, off + 1 + p[off] as int)
  }

  function Read2(p: seq<byte>, at: nat): int
    requires at + 2 <= |p|
  {
    p[at] as int * 256 + p[at + 1] as int
  }

  function Read4(p: seq<byte>, at: nat): int
    requires at + 4 <= |p|
  {
    Read2(p, at) * 65536 + Read2(p, at + 2)
  }

  /** The part of a record after its name. */
  ghost predicate BodyAt(p: seq<byte>, e: nat, a: Answer, next: nat) {
    && e + 10 <= next <= |p|
    && Read2(p, e) == a.rtype && Read2(p, e + 2) == a.rclass && Read4(p, e + 4) == a.ttl
    && Read2(p, e + 8) == next - e - 10
    && DataAt(p, e + 10, a, next)
  }

  ghost predicate DataAt(p: seq<byte>, at: nat, a: Answer, next: nat)
    requires at <= next <= |p|
  {
    if a.rtype == TYPE_A then next == at + 4 && a.data == Host(p[at..next])
    else a.rtype == TYPE_CNAME && a.data.Alias? && Names(false, p, at, a.data.name) && FieldEnd(p, at) == Some(next)
  }

  ghost predicate AnswerAt(p: seq<byte>, off: nat, a: Answer, next: nat) {
    Names(false, p, off, a.owner) && FieldEnd(p, off).Some? && BodyAt(p, FieldEnd(p, off).value, a, next)
  }

  /** The bytes from off to end are read as these answers, one after the other. */
  ghost predicate Denotes(p: seq<byte>, off: nat, answers: seq<Answer>, end: nat)
    decreases |answers|
  {
    if answers == [] then off == end
    else exists next :: AnswerAt(p, off, answers[0], next) && Denotes(p, next, answers[1..], end)
  }

  lemma {:induction false} FieldForward(p: seq<byte>, off: nat)
    requires FieldEnd(p, off).Some?
    ensures off < FieldEnd(p, off).value <= |p|
    decreases |p| - off
  {
    if p[off] < 192 && p[off] != 0 {
      FieldForward(p, off + 1 + p[off] as int);
    }
  }

  /** Answers take bytes. */
  lemma {:induction false} DenotesForward(p: seq<byte>, off: nat, answers: seq<Answer>, end: nat)
    requires Denotes(p, off, answers, end)
    ensures off <= end && (answers != [] ==> off < end <= |p|)
    decreases |answers|
  {
    if answers != [] {
      var next :| AnswerAt(p, off, answers[0], next) && Denotes(p, next, answers[1..], end);
      FieldForward(p, off);
      DenotesForward(p, next, answers[1..], end);
    }
  }

  /** There is one way to read them. */
  lemma {:induction false} DenotesUnique(p: seq<byte>, off: nat, xs: seq<Answer>, ys: seq<Answer>, end: nat)
    requires Denotes(p, off, xs, end) && Denotes(p, off, ys, end)
    ensures xs == ys
    decreases |xs|
  {
    DenotesForward(p, off, xs, end);
    DenotesForward(p, off, ys, end);
    if xs != [] && ys != [] {
      var m :| AnswerAt(p, off, xs[0], m) && Denotes(p, m, xs[1..], end);
      var n :| AnswerAt(p, off, ys[0], n) && Denotes(p, n, ys[1..], end);
      AnswerUnique(p, off, xs[0], m, ys[0], n);
      DenotesUnique(p, m, xs[1..], ys[1..], end);
      assert xs == [xs[0]] + xs[1..] && ys == [ys[0]] + ys[1..];
    }
  }

  /** The same answers end at the same place. */
  lemma {:induction false} DenotesEnd(p: seq<byte>, off: nat, answers: seq<Answer>, e1: nat, e2: nat)
    requires Denotes(p, off, answers, e1) && Denotes(p, off, answers, e2)
    ensures e1 == e2
    decreases |answers|
  {
    if answers != [] {
      var m :| AnswerAt(p, off, answers[0], m) && Denotes(p, m, answers[1..], e1);
      var n :| AnswerAt(p, off, answers[0], n) && Denotes(p, n, answers[1..], e2);
      AnswerUnique(p, off, answers[0], m, answers[0], n);
      DenotesEnd(p, m, answers[1..], e1, e2);
    }
  }

  lemma {:induction false} AnswerUnique(p: seq<byte>, off: nat, x: Answer, m: nat, y: Answer, n: nat)
    requires AnswerAt(p, off, x, m) && AnswerAt(p, off, y, n)
    ensures x == y && m == n
  {
    NamesUnique(false, p, off, x.owner, y.owner);
    var at := FieldEnd(p, off).value + 10;
    if x.rtype == TYPE_CNAME {
      NamesUnique(false, p, at, x.data.name, y.data.name);
    }
  }

  // ----- More bytes after the end change nothing

  lemma {:induction false} ExpandExtends(p: seq<byte>, t: seq<byte>, off: int, fuel: nat)
    requires Expand(false, p, off, fuel).Some?
    ensures Expand(false, p + t, off, fuel) == Expand(false, p, off, fuel)
    decreases fuel
  {
    assert (p + t)[off] == p[off];
    if p[off] >= 192 {
      ExpandExtends(p, t, RfcTarget(p[off], p[off + 1]), fuel - 1);
    } else if p[off] != 0 {
      var next := off + 1 + p[off] as int;
      assert (p + t)[off + 1..next] == p[off + 1..next];
      ExpandExtends(p, t, next, fuel - 1);
    }
  }

  lemma {:induction false} NamesExtends(p: seq<byte>, t: seq<byte>, off: int, ls: seq<Label>)
    requires Names(false, p, off, ls)
    ensures Names(false, p + t, off, ls)
  {
    var f: nat :| Expand(false, p, off, f) == Some(ls);
    ExpandExtends(p, t, off, f);
  }

  lemma {:induction false} FieldEndExtends(p: seq<byte>, t: seq<byte>, off: nat)
    requires FieldEnd(p, off).Some?
    ensures FieldEnd(p + t, off) == FieldEnd(p, off)
    decreases |p| - off
  {
    assert (p + t)[off] == p[off];
    if p[off] < 192 && p[off] != 0 {
      FieldEndExtends(p, t, off + 1 + p[off] as int);
    }
  }

  lemma {:induction false} BodyExtends(p: seq<byte>, t: seq<byte>, e: nat, a: Answer, next: nat)
    requires BodyAt(p, e, a, next)
    ensures BodyAt(p + t, e, a, next)
  {
    if a.rtype == TYPE_A {
      assert (p + t)[e + 10..next] == p[e + 10..next];
    } else {
      NamesExtends(p, t, e + 10, a.data.name);
      FieldEndExtends(p, t, e + 10);
    }
  }

  lemma {:induction false} AnswerExtends(p: seq<byte>, t: seq<byte>, off: nat, a: Answer, next: nat)
    requires AnswerAt(p, off, a, next)
    ensures AnswerAt(p + t, off, a, next)
  {
    NamesExtends(p, t, off, a.owner);
    FieldEndExtends(p, t, off);
    BodyExtends(p, t, FieldEnd(p, off).value, a, next);
  }

  lemma {:induction false} DenotesExtends(p: seq<byte>, t: seq<byte>, off: nat, answers: seq<Answer>, end: nat)
    requires Denotes(p, off, answers, end)
    ensures Denotes(p + t, off, answers, end)
    decreases |answers|
  {
    if answers != [] {
      var next :| AnswerAt(p, off, answers[0], next) && Denotes(p, next, answers[1..], end);
      AnswerExtends(p, t, off, answers[0], next);
      DenotesExtends(p, t, next, answers[1..], end);
    }
  }

  /** Some answers, and then maybe other bytes. */
  ghost predicate Carries(p: seq<byte>, off: nat, answers: seq<Answer>) {
    exists end: nat :: end <= |p| && Denotes(p, off, answers, end)
  }

  /** A message that is cut holds its answers exactly when nothing was cut off. */
  lemma {:induction false} CutCarries(p: seq<byte>, off: nat, answers: seq<Answer>, cut: nat)
    requires off <= |p| && Denotes(p, off, answers, |p|) && cut <= |p|
    ensures Carries(p[..cut], off, answers) <==> cut == |p|
  {
    assert p[..cut] + p[cut..] == p;
    if Carries(p[..cut], off, answers) {
      var end: nat :| end <= cut && Denotes(p[..cut], off, answers, end);
      DenotesExtends(p[..cut], p[cut..], off, answers, end);
      DenotesEnd(p, off, answers, end, |p|);
    }
    if cut == |p| {
      assert p[..cut] == p;
    }
  }

  lemma {:induction false} DenotesAppend(p: seq<byte>, t: seq<byte>, off: nat, answers: seq<Answer>, a: Answer)
    requires Denotes(p, off, answers, |p|) && AnswerAt(p + t, |p|, a, |p + t|)
    ensures Denotes(p + t, off, answers + [a], |p + t|)
    decreases |answers|
  {
    var all := answers + [a];
    if answers == [] {
      assert Denotes(p + t, |p + t|, all[1..], |p + t|);
    } else {
      var next :| AnswerAt(p, off, answers[0], next) && Denotes(p, next, answers[1..], |p|);
      AnswerExtends(p, t, off, answers[0], next);
      DenotesAppend(p, t, next, answers[1..], a);
      assert all[1..] == answers[1..] + [a];
      assert AnswerAt(p + t, off, all[0], next) && Denotes(p + t, next, all[1..], |p + t|);
    }
  }

  // ----- Writing

  /** A row of the result of the query for records. */
  datatype Row = Row(ttl: int, name: seq<byte>, value: seq<byte>, rtype: int, rclass: int)

  type Locations = map<seq<byte>, nat>

  predicate GoodRow(r: Row) {
    && GoodName(r.name) && 0 <= r.ttl < 0x1_0000_0000 && 0 <= r.rclass < 65536
    && if r.rtype == TYPE_A then QuadText(r.value) else r.rtype == TYPE_CNAME && GoodName(r.value) && |r.value| <= 255
  }

  predicate GoodRows(rows: seq<Row>) {
    forall i :: 0 <= i < |rows| ==> GoodRow(rows[i])
  }

  /** The meaning of a row. */
  function AnswerOf(r: Row): Answer
    requires GoodRow(r)
  {
    Answer(Labels(r.name), r.rtype, r.rclass, r.ttl,
      if r.rtype == TYPE_A then Host(Address(r.value)) else Alias(Labels(r.value)))
  }

  function AnswersOf(rows: seq<Row>): (answers: seq<Answer>)
    requires GoodRows(rows)
    ensures |answers| == |rows|
  {
    seq(|rows|, i requires 0 <= i < |rows| => AnswerOf(rows[i]))
  }

  function Big2(n: int): (s: seq<byte>)
    requires 0 <= n < 65536
    ensures |s| == 2
  {
    [n / 256, n % 256]
  }

  function Big4(n: int): (s: seq<byte>)
    requires 0 <= n < 0x1_0000_0000
    ensures |s| == 4
  {
    Big2(n / 65536) + Big2(n % 65536)
  }

  function NameWire(name: seq<byte>): (w: seq<byte>)
    requires GoodName(name)
    ensures |w| == |name| + 2
  {
    GoodIsShort(name);
    WireOfName(name);
    Wire(Labels(name))
  }

  /** The name of a record: a pointer to where it has been written, or the name in full. */
  function NameField(name: seq<byte>, locs: Locations): (w: seq<byte>)
    requires GoodName(name)
    ensures name in locs ==> |w| == 2
  {
    if name in locs then Big2(0xC000 + locs[name] % 0x4000) else NameWire(name)
  }

  function RData(r: Row): (w: seq<byte>)
    requires GoodRow(r)
    ensures |w| == DataSize(r) <= 257
  {
    if r.rtype == TYPE_A then Address(r.value) else NameWire(r.value)
  }

  /** Type, class, time to live and length, in network order. */
  function Fixed(r: Row, n: nat): (w: seq<byte>)
    requires GoodRow(r) && n < 65536
    ensures |w| == 10
  {
    Big2(r.rtype) + Big2(r.rclass) + Big4(r.ttl) + Big2(n)
  }

  function OwnerSize(r: Row, locs: Locations): nat {
    if r.name in locs then 2 else |r.name| + 2
  }

  function DataSize(r: Row): nat {
    if r.rtype == TYPE_A then 4 else |r.value| + 2
  }

  function RecordSize(r: Row, locs: Locations): nat {
    OwnerSize(r, locs) + 10 + DataSize(r)
  }

  function RecordBytes(r: Row, locs: Locations): (w: seq<byte>)
    requires GoodRow(r)
    ensures |w| == RecordSize(r, locs)
  {
    NameField(r.name, locs) + (Fixed(r, |RData(r)|) + RData(r))
  }

  /** The places of names after a record has been written at an offset. */
  function NextLocs(r: Row, locs: Locations, at: nat): Locations {
    if r.rtype == TYPE_CNAME && r.value !in locs then locs[r.value := at + OwnerSize(r, locs) + 10] else locs
  }

  /** A name stands in full at an offset that a pointer can hold. */
  predicate WireAt(s: seq<byte>, at: nat, name: seq<byte>) {
    GoodName(name) && at < 0x4000 && at + |name| + 2 <= |s| && s[at..at + |name| + 2] == NameWire(name)
  }

  /** Every name in the map stands in full at its place. */
  ghost predicate Located(s: seq<byte>, locs: Locations) {
    forall name :: name in locs ==> WireAt(s, locs[name], name)
  }

  // ----- What is written is read as the row

  lemma {:induction false} LabelsNames(a: seq<byte>, ls: seq<Label>, b: seq<byte>, p: seq<byte>, e: nat)
    requires GoodLabels(ls) && ShortLabels(ls) && p == a + (Wire(ls) + b) && e == |a| + |Wire(ls)|
    ensures Names(false, p, |a|, ls) && FieldEnd(p, |a|) == Some(e)
  {
    WireExpands(false, a, ls, b, p, |ls| + 1);
    WireFieldEnd(a, ls, b, p);
  }

  lemma {:induction false} WireNames(a: seq<byte>, name: seq<byte>, b: seq<byte>, p: seq<byte>)
    requires GoodName(name) && p == a + (NameWire(name) + b)
    ensures Names(false, p, |a|, Labels(name)) && FieldEnd(p, |a|) == Some(|a| + |name| + 2)
  {
    GoodIsShort(name);
    WireOfName(name);
    LabelsNames(a, Labels(name), b, p, |a| + |name| + 2);
  }

  lemma {:induction false} WireFieldEnd(a: seq<byte>, ls: seq<Label>, b: seq<byte>, p: seq<byte>)
    requires GoodLabels(ls) && ShortLabels(ls) && p == a + (Wire(ls) + b)
    ensures FieldEnd(p, |a|) == Some(|a| + |Wire(ls)|)
    decreases |ls|
  {
    if ls == [] {
      assert p[|a|] == 0;
    } else {
      var l, rest := ls[0], ls[1..];
      assert ls == [l] + rest;
      WireCons(ls, l, rest);
      WirePart(a, l, Wire(rest), b);
      WireFieldEnd(a + Part(l), rest, b, p);
      assert GoodLabel(l) && |a + Part(l)| == |a| + 1 + |l|;
    }
  }

  lemma {:induction false} Around(s: seq<byte>, at: nat, w: seq<byte>, t: seq<byte>)
    requires at + |w| <= |s| && s[at..at + |w|] == w
    ensures s + t == s[..at] + (w + (s[at + |w|..] + t))
  {
    assert s == s[..at] + s[at..at + |w|] + s[at + |w|..];
  }

  lemma {:induction false} PointerBytes(s: seq<byte>, loc: nat, b: seq<byte>, p: seq<byte>)
    requires loc < 0x4000 && p == s + (Big2(0xC000 + loc) + b)
    ensures p[|s|] as int == 192 + loc / 256 && p[|s| + 1] as int == loc % 256
  {
  }

  lemma {:induction false} PointerNames(s: seq<byte>, locs: Locations, name: seq<byte>, b: seq<byte>, p: seq<byte>)
    requires Located(s, locs) && name in locs && GoodName(name) && p == s + (NameField(name, locs) + b)
    ensures Names(false, p, |s|, Labels(name)) && FieldEnd(p, |s|) == Some(|s| + 2)
  {
    var loc := locs[name];
    assert WireAt(s, loc, name);
    var t, w := NameField(name, locs) + b, NameWire(name);
    Around(s, loc, w, t);
    WireNames(s[..loc], name, s[loc + |w|..] + t, p);
    assert loc % 0x4000 == loc;
    PointerBytes(s, loc, b, p);
    PointerReads(p, |s|, loc, Labels(name));
  }

  lemma {:induction false} PointerReads(p: seq<byte>, off: nat, loc: nat, ls: seq<Label>)
    requires loc < 0x4000 && off + 2 <= |p| && p[off] as int == 192 + loc / 256 && p[off + 1] as int == loc % 256
    requires Names(false, p, loc, ls)
    ensures Names(false, p, off, ls) && FieldEnd(p, off) == Some(off + 2)
  {
    var f: nat :| Expand(false, p, loc, f) == Some(ls);
    assert RfcTarget(p[off], p[off + 1]) == loc;
    assert Expand(false, p, off, f + 1) == Some(ls);
  }

  lemma {:induction false} FieldNames(s: seq<byte>, locs: Locations, name: seq<byte>, b: seq<byte>, p: seq<byte>)
    requires Located(s, locs) && GoodName(name) && p == s + (NameField(name, locs) + b)
    ensures Names(false, p, |s|, Labels(name)) && FieldEnd(p, |s|) == Some(|s| + |NameField(name, locs)|)
  {
    if name in locs {
      PointerNames(s, locs, name, b, p);
    } else {
      WireNames(s, name, b, p);
    }
  }

  lemma {:induction false} FixedReads(a: seq<byte>, r: Row, n: nat, d: seq<byte>, p: seq<byte>)
    requires GoodRow(r) && n < 65536 && p == a + (Fixed(r, n) + d)
    ensures Read2(p, |a|) == r.rtype
    ensures Read2(p, |a| + 2) == r.rclass
    ensures Read4(p, |a| + 4) == r.ttl
    ensures Read2(p, |a| + 8) == n
  {
    var e := |a|;
    var f := Fixed(r, n);
    assert forall i :: 0 <= i < 10 ==> p[e + i] == f[i];
    assert f[..2] == Big2(r.rtype) && f[2..4] == Big2(r.rclass) && f[4..8] == Big4(r.ttl) && f[8..] == Big2(n);
  }

  lemma {:induction false} DataReads(b: seq<byte>, r: Row, p: seq<byte>)
    requires GoodRow(r) && p == b + RData(r)
    ensures DataAt(p, |b|, AnswerOf(r), |p|)
  {
    var d := RData(r);
    if r.rtype == TYPE_A {
      assert p[|b|..|p|] == d;
    } else {
      assert d + [] == d;
      WireNames(b, r.value, [], p);
    }
  }

  lemma {:induction false} BodyReads(a: seq<byte>, r: Row, p: seq<byte>)
    requires GoodRow(r) && p == a + (Fixed(r, |RData(r)|) + RData(r))
    ensures BodyAt(p, |a|, AnswerOf(r), |p|)
  {
    var f, d := Fixed(r, |RData(r)|), RData(r);
    FixedReads(a, r, |d|, d, p);
    Assoc(a, f, d);
    DataReads(a + f, r, p);
  }

  /** A record written after s is read as its row, under the places of names in s. */
  lemma {:induction false} RecordReads(s: seq<byte>, r: Row, locs: Locations, p: seq<byte>)
    requires GoodRow(r) && Located(s, locs) && p == s + RecordBytes(r, locs)
    ensures AnswerAt(p, |s|, AnswerOf(r), |p|)
  {
    var n, body := NameField(r.name, locs), Fixed(r, |RData(r)|) + RData(r);
    FieldNames(s, locs, r.name, body, p);
    Assoc(s, n, body);
    BodyReads(s + n, r, p);
  }

  lemma {:induction false} LocatedExtends(s: seq<byte>, t: seq<byte>, locs: Locations)
    requires Located(s, locs)
    ensures Located(s + t, locs)
  {
    forall name | name in locs ensures WireAt(s + t, locs[name], name) {
      var at := locs[name];
      assert WireAt(s, at, name);
      assert (s + t)[at..at + |name| + 2] == s[at..at + |name| + 2];
    }
  }

  lemma {:induction false} WireThere(a: seq<byte>, name: seq<byte>, b: seq<byte>, p: seq<byte>)
    requires GoodName(name) && |a| < 0x4000 && p == a + (NameWire(name) + b)
    ensures WireAt(p, |a|, name)
  {
  }

  /** Writing a record keeps every name at its place, and puts the name of an alias at its own. */
  lemma {:induction false} RecordLocates(s: seq<byte>, r: Row, locs: Locations, p: seq<byte>)
    requires GoodRow(r) && Located(s, locs) && p == s + RecordBytes(r, locs) && |p| <= 0x4000
    ensures Located(p, NextLocs(r, locs, |s|))
  {
    LocatedExtends(s, RecordBytes(r, locs), locs);
    if r.rtype == TYPE_CNAME && r.value !in locs {
      var n, f, d := NameField(r.name, locs), Fixed(r, |RData(r)|), RData(r);
      Assoc(s, n, f + d);
      Assoc(s + n, f, d);
      assert d + [] == d;
      WireThere(s + n + f, r.value, [], p);
    }
  }

  // ----- Where the code goes on after a name

  /** The labels at an offset end in a pointer. */
  predicate EndsInPointer(p: seq<byte>, off: nat)
    decreases |p| - off
  {
    off < |p| && (p[off] >= 192 || (0 < p[off] <= 63 && EndsInPointer(p, off + 1 + p[off] as int)))
  }

  lemma {:induction false} TrailNotOne(ls: seq<Label>)
    requires forall i :: 0 <= i < |ls| ==> |ls[i]| >= 1
    ensures |Trail(ls)| != 1
  {
  }

  lemma {:induction false} LabelsNotEmpty(p: seq<byte>, off: nat, fuel: nat)
    requires Expand(true, p, off, fuel).Some?
    ensures forall i :: 0 <= i < |Expand(true, p, off, fuel).value| ==> |Expand(true, p, off, fuel).value[i]| >= 1
    decreases fuel
  {
    if p[off] >= 192 {
      LabelsNotEmpty(p, Next(p, off), fuel - 1);
    } else if p[off] > 0 {
      LabelsNotEmpty(p, off + 1 + p[off] as int, fuel - 1);
    }
  }

  /**
    The bytes of a name in the packet are those of its labels and its zero exactly when it does not end in a
    pointer.
   */
  lemma {:induction false} FieldLength(p: seq<byte>, off: nat, ls: seq<Label>, fuel: nat)
    requires Expand(true, p, off, fuel) == Some(ls)
    ensures FieldEnd(p, off).Some?
    ensures FieldEnd(p, off).value == off + |Trail(ls)| + 1 <==> !EndsInPointer(p, off)
    decreases fuel
  {
    if p[off] >= 192 {
      LabelsNotEmpty(p, off, fuel);
      TrailNotOne(ls);
    } else if p[off] > 0 {
      FieldLength(p, off + 1 + p[off] as int, ls[1..], fuel - 1);
    }
  }

  /** `b.a`, written as a label and a pointer: four bytes in the packet, five are reported. */
  lemma {:induction false} FieldShorter()
    ensures var p: seq<byte> := [1, 97, 0, 1, 98, 192, 0];
      Expand(true, p, 3, 4) == Some([[98], [97]]) && FieldEnd(p, 3) == Some(7) && 3 + |Trail([[98], [97]])| + 1 == 8
  {
    var p: seq<byte> := [1, 97, 0, 1, 98, 192, 0];
    assert p[4..5] == [98] && p[1..2] == [97];
    ExpandEnd(true, p, 2, 1);
    ExpandLabel(true, p, 0, [97], 2);
    ExpandLabel(true, p, 3, [98], 4);
    assert Expand(true, p, 5, 3) == Expand(true, p, 0, 2);
    assert [[98 as byte]] + ([[97]] + []) == [[98], [97]] && [[98 as byte], [97]][1..] == [[97]];
  }

  /** Where the decoder starts for the name of a record. */
  function OwnerStart(p: seq<byte>, off: nat): nat
    requires off + 1 < |p|
  {
    if p[off] >= 192 then Next(p, off) else off
  }

  /**
    The name in `DNSResourceRecord::decode`: a pointer in front is followed and two bytes are passed; otherwise
    as many bytes are passed as were decoded, which is where the name ends unless it ends in a pointer.
   */
  method DecodeOwner(p: seq<byte>, off: nat, name: array<byte>) returns (r: Outcome, next: nat, ghost ls: seq<Label>)
    requires off + 1 < |p| && name.Length == 256
    requires OwnerStart(p, off) <= 512 && Terminated(p, OwnerStart(p, off)) ==>
      forall n :: !Trapped(p, Cursor(OwnerStart(p, off), 0), 256, n)
    modifies name
    ensures r.Decoded? ==> Readable(p, OwnerStart(p, off), 256, ls) && Names(true, p, off, ls) && Shows(name[..], ls)
    ensures r.Decoded? ==>
      FieldEnd(p, off).Some? && (next == FieldEnd(p, off).value <==> p[off] >= 192 || !EndsInPointer(p, off))
    ensures r.Decoded? <==>
      && OwnerStart(p, off) <= 512 && Terminated(p, OwnerStart(p, off))
      && exists ms :: Readable(p, OwnerStart(p, off), 256, ms)
  {
    next, ls := off, [];
    var pointer := p[off] >= 192;
    var srcLoc := if pointer then Next(p, off) else off;
    if srcLoc > 512 {
      return Failed(OutOfBounds), next, ls;
    }
    assert srcLoc == OwnerStart(p, off);
    r, ls := DecodeName(p, srcLoc, name, 256);
    if r.Decoded? {
      ghost var f: nat :| Expand(true, p, srcLoc, f) == Some(ls);
      TrailDotted(ls);
      if pointer {
        next := off + 2;
        assert Expand(true, p, off, f + 1) == Some(ls);
      } else {
        next := srcLoc + r.bytesRead;
        FieldLength(p, off, ls, f);
      }
    }
  }
}
