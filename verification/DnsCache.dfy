/**
  Records read back (DNS/DNSResourceRecord.cpp, DNS/DNSRDataA.cpp, DNS/DNSRDataCNAME.cpp, and the walk of
  `cacheResponse` in DNS/DNSResolver.cpp), and which records of a reply the code can read that wrote them.
 */
module DnsCache {
  import opened Bytes
  import opened DnsNames
  import opened DnsDecode
  import opened DnsQuad
  import opened DnsRecords
  import opened DnsResolver

  /** The fixed part of a record, as the code holds it. */
  datatype Info = Info(rtype: int, rclass: int, ttl: int, rdlength: int)

  function InfoAt(p: seq<byte>, e: nat): Info
    requires e + 10 <= |p|
  {
    Info(Read2(p, e), Read2(p, e + 2), Read4(p, e + 4), Read2(p, e + 8))
  }

  /** What is cached of a record. */
  datatype Cached = Cached(name: seq<byte>, rtype: int, rclass: int, ttl: int, value: seq<byte>)

  /** A row as it comes back: an address as it is printed. */
  function CachedOf(r: Row): Cached
    requires GoodRow(r)
  {
    Cached(r.name, r.rtype, r.rclass, r.ttl, if r.rtype == TYPE_A then Text(Address(r.value)) else r.value)
  }

  /** Names as section 2.3.4 of RFC 1035 allows them, without NUL. */
  predicate CachedName(name: seq<byte>) { GoodName(name) && |name| <= 254 && 0 !in name }

  predicate CachedRow(r: Row) {
    GoodRow(r) && CachedName(r.name) && (r.rtype == TYPE_CNAME ==> CachedName(r.value))
  }

  ghost predicate CachedRows(rows: seq<Row>) {
    forall i :: 0 <= i < |rows| ==> CachedRow(rows[i])
  }

  /**
    The name of a record can be decoded: a pointer has a low byte below 128 and an offset within 512 bytes; a
    name in full starts within 512 bytes.
   */
  predicate Decodable(r: Row, locs: Locations, off: nat) {
    if r.name in locs then locs[r.name] <= 512 && locs[r.name] % 256 < 128 else off <= 512
  }

  // ----- The parts of a record in a packet

  /** A record for r stands in the packet at an offset, and the names it may refer to in front of it. */
  ghost predicate RecordAt(p: seq<byte>, off: nat, r: Row, locs: Locations) {
    && GoodRow(r) && off + RecordSize(r, locs) <= |p| && off + RecordSize(r, locs) <= 0x4000
    && Located(p[..off], locs) && p[off..off + RecordSize(r, locs)] == RecordBytes(r, locs)
  }

  /** The same; the quantifier keeps it closed. */
  ghost predicate IsRecord(p: seq<byte>, off: nat, r: Row, locs: Locations) {
    forall o: nat {:trigger RecordAt(p, o, r, locs)} :: o == off ==> RecordAt(p, o, r, locs)
  }

  /** Three parts one after the other. */
  lemma {:induction false} PartsThere(p: seq<byte>, off: nat, w: seq<byte>, f: seq<byte>, d: seq<byte>)
    requires off + |w| + |f| + |d| <= |p| && p[off..off + |w| + |f| + |d|] == w + (f + d)
    ensures var rest := p[off + |w| + |f| + |d|..];
      && p == p[..off] + (w + (f + d + rest))
      && p == p[..off + |w|] + (f + (d + rest))
      && p[off + |w| + |f|..off + |w| + |f| + |d|] == d
  {
    var n := off + |w| + |f| + |d|;
    var rest := p[n..];
    assert p == p[..off] + p[off..n] + rest;
    assert p[..off + |w|] == p[..off] + w;
  }

  lemma {:induction false} RecordParts(p: seq<byte>, off: nat, r: Row, locs: Locations, w: seq<byte>, f: seq<byte>,
                                       d: seq<byte>)
    requires RecordAt(p, off, r, locs)
    requires w == NameField(r.name, locs) && f == Fixed(r, |RData(r)|) && d == RData(r)
    ensures |w| == OwnerSize(r, locs) && |f| == 10 && |d| == DataSize(r)
    ensures off + |w| + |f| + |d| <= |p| && p[off..off + |w| + |f| + |d|] == w + (f + d)
  {
  }

  lemma {:induction false} FixedInfo(a: seq<byte>, r: Row, n: nat, d: seq<byte>, p: seq<byte>, e: nat)
    requires GoodRow(r) && n < 65536 && p == a + (Fixed(r, n) + d) && e == |a|
    ensures e + 10 <= |p| && InfoAt(p, e) == Info(r.rtype, r.rclass, r.ttl, n)
  {
    FixedReads(a, r, n, d, p);
  }

  /** The fixed part is that of the row. */
  lemma {:induction false} InfoIs(p: seq<byte>, off: nat, r: Row, locs: Locations)
    requires IsRecord(p, off, r, locs)
    ensures off + OwnerSize(r, locs) + 10 <= |p|
    ensures InfoAt(p, off + OwnerSize(r, locs)) == Info(r.rtype, r.rclass, r.ttl, DataSize(r))
  {
    assert RecordAt(p, off, r, locs);
    var w, f, d := NameField(r.name, locs), Fixed(r, |RData(r)|), RData(r);
    RecordParts(p, off, r, locs, w, f, d);
    PartsThere(p, off, w, f, d);
    FixedInfo(p[..off + |w|], r, |d|, d + p[off + |w| + |f| + |d|..], p, off + |w|);
  }

  /** The data are those of the row. */
  lemma {:induction false} DataIs(p: seq<byte>, off: nat, r: Row, locs: Locations)
    requires IsRecord(p, off, r, locs) && GoodRow(r)
    ensures var at := off + OwnerSize(r, locs) + 10;
      if r.rtype == TYPE_A then at + 4 <= |p| && p[at..at + 4] == Address(r.value) else WireAt(p, at, r.value)
  {
    assert RecordAt(p, off, r, locs);
    var w, f, d := NameField(r.name, locs), Fixed(r, |RData(r)|), RData(r);
    RecordParts(p, off, r, locs, w, f, d);
    PartsThere(p, off, w, f, d);
  }

  lemma {:induction false} LaterWire(s: seq<byte>, at: nat, name: seq<byte>, p: seq<byte>)
    requires WireAt(s, at, name) && s <= p
    ensures WireAt(p, at, name)
  {
    assert p[at..at + |name| + 2] == s[at..at + |name| + 2];
  }

  /** A pointer as it is written leads the code to its place, or to a place too far off. */
  lemma {:induction false} PointerLeads(loc: nat)
    requires loc < 0x4000
    ensures loc % 256 < 128 ==> CodeTarget(192 + loc / 256, loc % 256) == loc
    ensures loc % 256 >= 128 ==> CodeTarget(192 + loc / 256, loc % 256) > 512
  {
  }

  /** The pointer for a name that has a place. */
  lemma {:induction false} OwnerBytes(p: seq<byte>, off: nat, r: Row, locs: Locations)
    requires RecordAt(p, off, r, locs) && r.name in locs
    ensures off + 1 < |p| && locs[r.name] < 0x4000
    ensures p[off] as int == 192 + locs[r.name] / 256 && p[off + 1] as int == locs[r.name] % 256
  {
    var w, f, d := NameField(r.name, locs), Fixed(r, |RData(r)|), RData(r);
    RecordParts(p, off, r, locs, w, f, d);
    PartsThere(p, off, w, f, d);
    var loc := locs[r.name];
    assert WireAt(p[..off], loc, r.name);
    assert loc % 0x4000 == loc;
    PointerBytes(p[..off], loc, f + d + p[off + |w| + |f| + |d|..], p);
  }

  /** Where the decoder starts for such a name: at its place exactly when the record is decodable. */
  lemma {:induction false} OwnerPointer(p: seq<byte>, off: nat, r: Row, locs: Locations)
    requires RecordAt(p, off, r, locs) && r.name in locs
    ensures off + 1 < |p| && p[off] >= 192
    ensures Decodable(r, locs, off) <==> OwnerStart(p, off) <= 512
    ensures Decodable(r, locs, off) ==> WireAt(p, OwnerStart(p, off), r.name)
  {
    var loc := locs[r.name];
    OwnerBytes(p, off, r, locs);
    PointerLeads(loc);
    assert WireAt(p[..off], loc, r.name);
    LaterWire(p[..off], loc, r.name, p);
  }

  lemma {:induction false} OwnerInFull(p: seq<byte>, off: nat, r: Row, locs: Locations)
    requires RecordAt(p, off, r, locs) && r.name !in locs
    ensures off + 1 < |p| && p[off] < 192 && WireAt(p, off, r.name) && !EndsInPointer(p, off)
  {
    var w, f, d := NameField(r.name, locs), Fixed(r, |RData(r)|), RData(r);
    RecordParts(p, off, r, locs, w, f, d);
    PartsThere(p, off, w, f, d);
    assert p[off..off + |w|] == w;
    GoodIsShort(r.name);
    WireNoPointer(p[..off], Labels(r.name), f + d + p[off + |w| + |f| + |d|..], p);
  }

  lemma {:induction false} WireNoPointer(a: seq<byte>, ls: seq<Label>, b: seq<byte>, p: seq<byte>)
    requires GoodLabels(ls) && ShortLabels(ls) && p == a + (Wire(ls) + b)
    ensures |a| < |p| && p[|a|] < 192 && !EndsInPointer(p, |a|)
    decreases |ls|
  {
    if ls == [] {
      assert p[|a|] == 0;
    } else {
      var l, rest := ls[0], ls[1..];
      assert ls == [l] + rest;
      WireCons(ls, l, rest);
      WirePart(a, l, Wire(rest), b);
      WireNoPointer(a + Part(l), rest, b, p);
      assert GoodLabel(l) && |a + Part(l)| == |a| + 1 + |l|;
    }
  }

  // ----- Reading one record

  /** The buffer holds a text and a NUL. */
  ghost predicate Reads(buf: seq<byte>, text: seq<byte>) {
    |text| < |buf| && buf[..|text| + 1] == text + [0]
  }

  /** Where the decoder starts for the name in the data of an alias. */
  ghost predicate AliasEnds(p: seq<byte>, at: nat) {
    at + 1 < |p| && Terminated(p, OwnerStart(p, at)) ==> forall n :: !Trapped(p, Cursor(OwnerStart(p, at), 0), 256, n)
  }

  /** `DNSRDataCNAME::decode` */
  method DecodeAlias(p: seq<byte>, at: nat, value: array<byte>) returns (ok: bool, ghost ls: seq<Label>)
    requires value.Length == 256 && AliasEnds(p, at)
    modifies value
    ensures ok ==> at + 1 < |p| && Readable(p, OwnerStart(p, at), 256, ls) && Shows(value[..], ls)
    ensures ok <==>
      at + 1 < |p| && Terminated(p, OwnerStart(p, at)) && exists ms :: Readable(p, OwnerStart(p, at), 256, ms)
  {
    ok, ls := false, [];
    if at + 1 < |p| {
      var r;
      r, ls := DecodeName(p, OwnerStart(p, at), value, 256);
      ok := r.Decoded?;
    }
  }

  /** `DNSRDataA::decode`; more or fewer than four bytes are refused or leave an address that was not set. */
  method DecodeAddress(p: seq<byte>, at: nat, rdlength: int, value: array<byte>) returns (ok: bool)
    requires value.Length == 256
    modifies value
    ensures ok <==> rdlength == 4 && at + 4 <= |p|
    ensures ok ==> Reads(value[..], Text(p[at..at + 4]))
  {
    ok := rdlength == 4 && at + 4 <= |p|;
    if ok {
      var text, printed := PrintQuad(p[at..at + 4]);
      CopyInto(value, 0, text[..]);
      ghost var t := Text(p[at..at + 4]);
      assert value[..|t| + 1] == text[..|t| + 1];
    }
  }

  /**
    The name of a written record: decoded exactly when the record is decodable, and the record then goes on
    behind it.
   */
  method ReadOwner(p: seq<byte>, off: nat, name: array<byte>, ghost r: Row, ghost locs: Locations)
    returns (ok: bool, next: nat)
    requires IsRecord(p, off, r, locs) && CachedRow(r) && name.Length == 256
    modifies name
    ensures ok <==> Decodable(r, locs, off)
    ensures ok ==> Reads(name[..], r.name) && next == off + OwnerSize(r, locs)
  {
    NameReadable(p, off, r, locs);
    var outcome;
    ghost var ls;
    outcome, next, ls := DecodeOwner(p, off, name);
    ok := outcome.Decoded?;
  }

  /** What the decoder of names meets at a written record. */
  lemma {:induction false} NameReadable(p: seq<byte>, off: nat, r: Row, locs: Locations)
    requires IsRecord(p, off, r, locs) && CachedRow(r)
    ensures off + 1 < |p| && (Decodable(r, locs, off) <==> OwnerStart(p, off) <= 512)
    ensures Decodable(r, locs, off) ==>
      && Terminated(p, OwnerStart(p, off)) && Readable(p, OwnerStart(p, off), 256, Labels(r.name))
      && (forall n :: !Trapped(p, Cursor(OwnerStart(p, off), 0), 256, n))
      && (forall ls :: Readable(p, OwnerStart(p, off), 256, ls) ==> Dotted(ls) == r.name)
    ensures p[off] >= 192 || !EndsInPointer(p, off)
    ensures FieldEnd(p, off) == Some(off + OwnerSize(r, locs))
  {
    assert RecordAt(p, off, r, locs);
    if r.name in locs {
      OwnerPointer(p, off, r, locs);
      PointerEnd(p, off);
    } else {
      OwnerInFull(p, off, r, locs);
      FullEnd(p, off, r.name);
    }
    if Decodable(r, locs, off) {
      FullNameReadable(p, OwnerStart(p, off), r.name);
    }
  }

  lemma {:induction false} PointerEnd(p: seq<byte>, off: nat)
    requires off + 1 < |p| && p[off] >= 192
    ensures FieldEnd(p, off) == Some(off + 2)
  {
  }

  lemma {:induction false} FullEnd(p: seq<byte>, at: nat, name: seq<byte>)
    requires WireAt(p, at, name)
    ensures FieldEnd(p, at) == Some(at + |name| + 2)
  {
    var w := NameWire(name);
    Around(p, at, w, []);
    assert p + [] == p;
    WireNames(p[..at], name, p[at + |w|..] + [], p);
  }

  lemma {:induction false} AliasReadable(p: seq<byte>, at: nat, name: seq<byte>)
    requires WireAt(p, at, name) && CachedName(name)
    ensures at + 1 < |p| && OwnerStart(p, at) == at && AliasEnds(p, at)
    ensures Terminated(p, at) && Readable(p, at, 256, Labels(name))
    ensures forall ls :: Readable(p, at, 256, ls) ==> Dotted(ls) == name
  {
    FullNameReadable(p, at, name);
    var w := NameWire(name);
    Around(p, at, w, []);
    assert p + [] == p;
    GoodIsShort(name);
    WireNoPointer(p[..at], Labels(name), p[at + |w|..] + [], p);
  }

  /** The data of a written record come back. */
  method ReadData(p: seq<byte>, at: nat, info: Info, value: array<byte>, ghost r: Row) returns (ok: bool)
    requires CachedRow(r) && info.rtype == r.rtype && info.rdlength == DataSize(r) && value.Length == 256
    requires if r.rtype == TYPE_A then at + 4 <= |p| && p[at..at + 4] == Address(r.value) else WireAt(p, at, r.value)
    modifies value
    ensures ok && Reads(value[..], CachedOf(r).value)
  {
    if info.rtype == TYPE_A {
      ok := DecodeAddress(p, at, info.rdlength, value);
    } else {
      AliasReadable(p, at, r.value);
      ghost var ls;
      ok, ls := DecodeAlias(p, at, value);
    }
  }

  /**
    `DNSResourceRecord::decode` on a record that `encode` wrote: it succeeds exactly when the name is decodable,
    and then gives back the row and the offset of what follows.
   */
  method DecodeRecord(p: seq<byte>, off: nat, name: array<byte>, value: array<byte>, ghost r: Row,
                      ghost locs: Locations)
    returns (ok: bool, info: Info, next: nat)
    requires IsRecord(p, off, r, locs) && CachedRow(r) && name.Length == 256 == value.Length && name != value
    modifies name, value
    ensures ok <==> Decodable(r, locs, off)
    ensures ok ==> next == off + RecordSize(r, locs) && info == Info(r.rtype, r.rclass, r.ttl, DataSize(r))
    ensures ok ==> Reads(name[..], r.name) && Reads(value[..], CachedOf(r).value)
  {
    info, next := Info(0, 0, 0, 0), off;
    ok, next := ReadOwner(p, off, name, r, locs);
    if ok {
      InfoIs(p, off, r, locs);
      DataIs(p, off, r, locs);
      info := InfoAt(p, next);
      ok := ReadData(p, next + 10, info, value, r);
      next := next + 10 + info.rdlength;
    }
  }

  // ----- Reading a reply

  /** The bytes of a reply up to record i are the reply to the rows before it. */
  lemma {:induction false} ReplyPrefix(message: seq<byte>, locs: Locations, rows: seq<Row>, n: nat, s: seq<byte>,
                                       i: nat, at: nat)
    requires i <= n <= |rows|
    requires GoodRows(rows)
    requires Reply(message, locs, rows, n, s)
    requires at == Laid(Layout(|message|, locs), rows, i).end
    ensures |s| == Laid(Layout(|message|, locs), rows, n).end && at <= |s|
    ensures Reply(message, locs, rows, i, s[..at])
    decreases n
  {
    ReplySize(message, locs, rows, n, s);
    LaidGrows(Layout(|message|, locs), rows, i, n);
    if i == n {
      assert s[..at] == s;
    } else {
      var m := n - 1;
      var t :| Reply(message, locs, rows, m, t) && Adds(t, Laid(Layout(|message|, locs), rows, m).locs, rows[m], s);
      ReplyPrefix(message, locs, rows, m, t, i, at);
      AddsPrefix(t, Laid(Layout(|message|, locs), rows, m).locs, rows[m], s);
      Shorter(s, t, at);
    }
  }

  lemma {:induction false} Shorter(s: seq<byte>, t: seq<byte>, at: nat)
    requires at <= |t| <= |s| && s[..|t|] == t
    ensures s[..at] == t[..at]
  {
  }

  lemma {:induction false} ReplySize(message: seq<byte>, locs: Locations, rows: seq<Row>, n: nat, s: seq<byte>)
    requires n <= |rows| && Reply(message, locs, rows, n, s)
    ensures |s| == Laid(Layout(|message|, locs), rows, n).end
    decreases n
  {
    if n > 0 {
      var m := n - 1;
      var t :| Reply(message, locs, rows, m, t) && Adds(t, Laid(Layout(|message|, locs), rows, m).locs, rows[m], s);
      ReplySize(message, locs, rows, m, t);
    }
  }

  lemma {:induction false} AddsPrefix(t: seq<byte>, locs: Locations, r: Row, s: seq<byte>)
    requires Adds(t, locs, r, s) && GoodRow(r)
    ensures |t| <= |s| && s[..|t|] == t && s[|t|..] == RecordBytes(r, locs)
  {
    assert s == t + RecordBytes(r, locs);
  }

  /** The last record of a reply stands behind the reply to the rows before it. */
  lemma {:induction false} LastRecord(message: seq<byte>, locs: Locations, rows: seq<Row>, i: nat, s: seq<byte>,
                                      l: Layout)
    requires i < |rows|
    requires GoodRows(rows)
    requires Located(message, locs)
    requires Reply(message, locs, rows, i + 1, s)
    requires |s| <= 0x4000
    requires l == Laid(Layout(|message|, locs), rows, i)
    ensures |s| == l.end + RecordSize(rows[i], l.locs) && RecordAt(s, l.end, rows[i], l.locs)
  {
    var n := i + 1;
    var m := n - 1;
    assert Reply(message, locs, rows, n, s);
    var t :| Reply(message, locs, rows, m, t) && Adds(t, Laid(Layout(|message|, locs), rows, m).locs, rows[m], s);
    ReplyDenotes(message, locs, rows, i, t);
    RecordBehind(t, l.locs, rows[i], s);
  }

  lemma {:induction false} RecordBehind(t: seq<byte>, locs: Locations, r: Row, s: seq<byte>)
    requires Adds(t, locs, r, s) && GoodRow(r) && Located(t, locs) && |s| <= 0x4000
    ensures |s| == |t| + RecordSize(r, locs) && RecordAt(s, |t|, r, locs)
  {
    AddsPrefix(t, locs, r, s);
  }

  lemma {:induction false} RecordStays(s: seq<byte>, off: nat, r: Row, locs: Locations, p: seq<byte>)
    requires RecordAt(s, off, r, locs) && s <= p
    ensures RecordAt(p, off, r, locs)
  {
    assert p[..off] == s[..off];
    assert p[off..off + RecordSize(r, locs)] == s[off..off + RecordSize(r, locs)];
  }

  /** Record i of a reply stands where the layout says, with the places of names that it was written with. */
  lemma {:induction false} RecordOfReply(message: seq<byte>, locs: Locations, rows: seq<Row>, i: nat, p: seq<byte>,
                                         end: nat, l: Layout)
    requires i < |rows| && GoodRows(rows) && Located(message, locs) && end <= |p| && end <= 0x4000
    requires Reply(message, locs, rows, |rows|, p[..end]) && l == Laid(Layout(|message|, locs), rows, i)
    ensures IsRecord(p, l.end, rows[i], l.locs)
    ensures Laid(Layout(|message|, locs), rows, i + 1).end == l.end + RecordSize(rows[i], l.locs)
  {
    var s := p[..end];
    var at := Laid(Layout(|message|, locs), rows, i + 1).end;
    ReplyPrefix(message, locs, rows, |rows|, s, i + 1, at);
    LastRecord(message, locs, rows, i, s[..at], l);
    RecordStays(s[..at], l.end, rows[i], l.locs, p);
  }

  predicate DecodableAt(l: Layout, rows: seq<Row>, i: nat) {
    i < |rows| && Decodable(rows[i], Laid(l, rows, i).locs, Laid(l, rows, i).end)
  }

  /** The names of the first n records can be decoded. */
  ghost predicate AllDecodable(l: Layout, rows: seq<Row>, n: nat) {
    forall i {:trigger DecodableAt(l, rows, i)} :: 0 <= i < n ==> DecodableAt(l, rows, i)
  }

  /** What the records of the first n rows are cached as. */
  ghost predicate AreCached(rows: seq<Row>, n: nat, cached: seq<Cached>) {
    |cached| == n <= |rows| && forall i :: 0 <= i < n ==> GoodRow(rows[i]) && cached[i] == CachedOf(rows[i])
  }

  /** One more record of the walk, with the layout l before it. */
  lemma {:induction false} WalkNext(l0: Layout, rows: seq<Row>, i: nat, l: Layout, ok: bool)
    requires i < |rows| && l == Laid(l0, rows, i) && AllDecodable(l0, rows, i)
    requires ok <==> Decodable(rows[i], l.locs, l.end)
    ensures Laid(l0, rows, i + 1) == After(l, rows[i])
    ensures if ok then AllDecodable(l0, rows, i + 1) else !AllDecodable(l0, rows, |rows|)
  {
    assert DecodableAt(l0, rows, i) <==> ok;
  }

  lemma {:induction false} NoNul(r: Row)
    requires CachedRow(r)
    ensures 0 !in r.name && 0 !in CachedOf(r).value
  {
    if r.rtype == TYPE_A {
      TextNoNul(Address(r.value));
    }
  }

  /** One record of the walk. */
  method CacheOne(p: seq<byte>, ptr: nat, ghost r: Row, ghost locs: Locations) returns (ok: bool, c: Cached, next: nat)
    requires IsRecord(p, ptr, r, locs) && CachedRow(r)
    ensures ok <==> Decodable(r, locs, ptr)
    ensures ok ==> c == CachedOf(r) && next == ptr + RecordSize(r, locs)
  {
    var name, value := new byte[256], new byte[256];
    var info;
    ok, info, next := DecodeRecord(p, ptr, name, value, r, locs);
    c := Cached([], 0, 0, 0, []);
    if ok {
      NoNul(r);
      var n := CString(name, r.name);
      var v := CString(value, CachedOf(r).value);
      c := Cached(n, info.rtype, info.rclass, info.ttl, v);
    }
  }

  /** The packet holds a message up to `start`, and then up to `end` the records of the rows. */
  ghost predicate HoldsReply(p: seq<byte>, start: nat, locs: Locations, rows: seq<Row>, end: nat) {
    && CachedRows(rows) && start <= end <= |p| && end <= 0x4000
    && Located(p[..start], locs) && Reply(p[..start], locs, rows, |rows|, p[..end])
  }

  /** The same; the quantifier keeps it closed. */
  ghost predicate IsReply(p: seq<byte>, start: nat, locs: Locations, rows: seq<Row>, end: nat) {
    forall e: nat {:trigger HoldsReply(p, start, locs, rows, e)} :: e == end ==> HoldsReply(p, start, locs, rows, e)
  }

  lemma {:induction false} RecordInReply(p: seq<byte>, start: nat, locs: Locations, rows: seq<Row>, end: nat, i: nat,
                                         l: Layout)
    requires IsReply(p, start, locs, rows, end) && i < |rows| && l == Laid(Layout(start, locs), rows, i)
    ensures IsRecord(p, l.end, rows[i], l.locs) && CachedRow(rows[i])
  {
    assert HoldsReply(p, start, locs, rows, end);
    assert CachedRow(rows[i]);
    RecordOfReply(p[..start], locs, rows, i, p, end, l);
  }

  lemma {:induction false} CachedNext(rows: seq<Row>, i: nat, cached: seq<Cached>, c: Cached)
    requires i < |rows| && AreCached(rows, i, cached) && GoodRow(rows[i]) && c == CachedOf(rows[i])
    ensures AreCached(rows, i + 1, cached + [c])
  {
  }

  /** One round of the walk. */
  method CacheNext(p: seq<byte>, ptr: nat, cached: seq<Cached>, ghost start: nat, ghost locs: Locations,
                   ghost rows: seq<Row>,
                   ghost end: nat, ghost i: nat)
    returns (ok: bool, cached': seq<Cached>, next: nat)
    requires IsReply(p, start, locs, rows, end) && i < |rows| && ptr == Laid(Layout(start, locs), rows, i).end
    requires AllDecodable(Layout(start, locs), rows, i) && AreCached(rows, i, cached)
    ensures ok ==> next == Laid(Layout(start, locs), rows, i + 1).end
    ensures ok ==> AllDecodable(Layout(start, locs), rows, i + 1) && AreCached(rows, i + 1, cached')
    ensures !ok ==> !AllDecodable(Layout(start, locs), rows, |rows|)
  {
    ghost var l := Laid(Layout(start, locs), rows, i);
    RecordInReply(p, start, locs, rows, end, i, l);
    var c;
    ok, c, next := CacheOne(p, ptr, rows[i], l.locs);
    WalkNext(Layout(start, locs), rows, i, l, ok);
    cached' := cached + [c];
    if ok {
      CachedNext(rows, i, cached, c);
    }
  }

  /**
    The walk of `cacheResponse` over the answers of a reply. It comes through exactly when every name in it can be
    decoded: when each pointer has a low byte below 128 and no name lies behind the first 512 bytes. It then has
    read the rows.
   */
  method ReadBack(p: seq<byte>, start: nat, numResponses: nat, ghost locs: Locations, ghost rows: seq<Row>,
                  ghost end: nat)
    returns (ok: bool, cached: seq<Cached>)
    requires IsReply(p, start, locs, rows, end) && numResponses == |rows|
    ensures ok <==> AllDecodable(Layout(start, locs), rows, |rows|)
    ensures ok ==> AreCached(rows, |rows|, cached)
  {
    var i, ptr := 0, start;
    cached := [];
    while i < numResponses
      invariant 0 <= i <= |rows| && ptr == Laid(Layout(start, locs), rows, i).end
      invariant AllDecodable(Layout(start, locs), rows, i) && AreCached(rows, i, cached)
    {
      ok, cached, ptr := CacheNext(p, ptr, cached, start, locs, rows, end, i);
      if !ok {
        return;
      }
      i := i + 1;
    }
    ok := true;
  }

  lemma {:induction false} StandsReply(message: seq<byte>, locs: Locations, rows: seq<Row>, s: seq<byte>, l: Layout,
                                       p: seq<byte>, end: nat)
    requires CachedRows(rows) && Located(message, locs) && Stands(message, locs, rows, |rows|, s, l)
    requires end <= |p| && end <= 0x4000 && s == p[..end] && |message| <= end && message == p[..|message|]
    ensures IsReply(p, |message|, locs, rows, end)
  {
    assert Laid(Layout(|message|, locs), rows, |rows|) == l;
  }

  lemma {:induction false} CachedAreGood(rows: seq<Row>)
    requires CachedRows(rows)
    ensures GoodRows(rows)
  {
    forall i | 0 <= i < |rows| ensures GoodRow(rows[i]) {
      assert CachedRow(rows[i]);
    }
  }

  /** What `resolveA` wrote, read by the walk of `cacheResponse`. */
  method RoundTrip(resolver: Resolver, rows: seq<Row>, packet: array<byte>, start: nat)
    returns (written: bool, truncated: bool, ok: bool, cached: seq<Cached>)
    requires CachedRows(rows) && start <= packet.Length <= 0x4000
    requires Located(packet[..start], resolver.pointerLocations)
    modifies resolver, packet
    ensures var l := Layout(start, old(resolver.pointerLocations));
      && (written <==> LastEnd(l, rows) <= packet.Length && !LastRefused(l, rows))
      && (written ==> (truncated <==> Laid(l, rows, |rows|).end - start >= LIMIT))
      && (written && !truncated ==> (ok <==> AllDecodable(l, rows, |rows|)))
    ensures written && !truncated && ok ==> AreCached(rows, |rows|, cached)
  {
    ghost var message, locs, n, l := packet[..start], resolver.pointerLocations, 0, Layout(0, map[]);
    CachedAreGood(rows);
    var e, length, answers;
    e, length, answers, truncated, n, l := resolver.WriteReply(rows, packet, start);
    assert ComesTo(Layout(start, locs), rows, packet.Length, e);
    written, ok, cached := e.Done?, false, [];
    if written && !truncated {
      ReplyKeepsMessage(message, locs, rows, n, packet[..start + length], l);
      assert packet[..start] == packet[..start + length][..start];
      StandsReply(message, locs, rows, packet[..start + length], l, packet[..], start + length);
      ok, cached := ReadBack(packet[..], start, answers, locs, rows, start + length);
    }
  }

  lemma {:induction false} ReplyKeepsMessage(message: seq<byte>, locs: Locations, rows: seq<Row>, n: nat,
                                             s: seq<byte>, l: Layout)
    requires GoodRows(rows) && Stands(message, locs, rows, n, s, l)
    ensures |message| <= |s| && s[..|message|] == message
  {
    assert Laid(Layout(|message|, locs), rows, n) == l;
    ReplyPrefix(message, locs, rows, n, s, 0, |message|);
  }

  /** An alias, and its address. */
  function AliasRows(q: seq<byte>, v: seq<byte>): (rows: seq<Row>)
    ensures |rows| == 2
  {
    [Row(60, q, v, TYPE_CNAME, 1), Row(60, v, Text([192, 0, 2, 1]), TYPE_A, 1)]
  }

  lemma {:induction false} AliasPlaced(l: Layout, q: seq<byte>, v: seq<byte>)
    requires q in l.locs && v !in l.locs && l.end == 118
    ensures var rows := AliasRows(q, v);
      Laid(l, rows, 2).end == 148 + |v| && !AllDecodable(l, rows, 2)
  {
    var rows := AliasRows(q, v);
    assert Laid(l, rows, 1) == After(l, rows[0]) && Laid(l, rows, 2) == After(Laid(l, rows, 1), rows[1]);
    assert Laid(l, rows, 1).locs[v] == 130;
    assert !DecodableAt(l, rows, 1);
  }

  lemma {:induction false} AliasCached(q: seq<byte>, v: seq<byte>)
    requires CachedName(q) && CachedName(v)
    ensures CachedRows(AliasRows(q, v))
  {
    AddressOfText([192, 0, 2, 1]);
    AddressCached(v, Text([192, 0, 2, 1]));
  }

  lemma {:induction false} AddressCached(v: seq<byte>, text: seq<byte>)
    requires CachedName(v) && QuadText(text)
    ensures CachedRow(Row(60, v, text, TYPE_A, 1))
  {
  }

  /**
    An alias of a name of 100 bytes has its place at offset 130. The record with its address is written with a
    pointer there, and the walk stops at it.
   */
  method AliasLost(resolver: Resolver, packet: array<byte>, q: seq<byte>, v: seq<byte>)
    returns (written: bool, truncated: bool, ok: bool, cached: seq<Cached>)
    requires CachedName(q) && |q| == 100 && CachedName(v) && v != q
    requires packet.Length == 1024 && resolver.pointerLocations == map[q := HEADER] && WireAt(packet[..118], HEADER, q)
    modifies resolver, packet
    ensures written && !truncated && !ok
  {
    var rows := AliasRows(q, v);
    ghost var l := Layout(118, resolver.pointerLocations);
    AliasCached(q, v);
    CachedAreGood(rows);
    AliasPlaced(l, q, v);
    WholeTaken(l, rows);
    written, truncated, ok, cached := RoundTrip(resolver, rows, packet, 118);
  }
}
