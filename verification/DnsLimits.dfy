/** Where the limits of the resolver and of the server are felt: inputs at which properties of DnsResolver fail. */
module DnsLimits {
  import opened Bytes
  import opened DnsNames
  import opened DnsEncode
  import opened DnsQuad
  import opened DnsRecords
  import opened DnsRoom
  import opened DnsResolver

  // ----- Addresses

  /** Rows with an address, k of them. */
  function AddressRows(q: seq<byte>, k: nat): (rows: seq<Row>)
    ensures |rows| == k
  {
    seq(k, _ => Row(60, q, Text([192, 0, 2, 1]), TYPE_A, 1))
  }

  /** With the name of the question known, an address takes 16 bytes. */
  lemma {:induction false} AddressesLaid(l: Layout, q: seq<byte>, k: nat, n: nat)
    requires q in l.locs && n <= k
    ensures Laid(l, AddressRows(q, k), n) == Layout(l.end + 16 * n, l.locs)
    decreases n
  {
    if n > 0 {
      AddressesLaid(l, q, k, n - 1);
    }
  }

  lemma {:induction false} AddressesGood(q: seq<byte>, k: nat)
    requires GoodName(q)
    ensures GoodRows(AddressRows(q, k))
  {
    AddressOfText([192, 0, 2, 1]);
  }

  lemma {:induction false} AddressesStop(l: Layout, q: seq<byte>, k: nat, m: nat)
    requires q in l.locs && m == if k < 32 then k else 32
    ensures Stop(l, AddressRows(q, k), 0) == m && LastEnd(l, AddressRows(q, k)) == l.end + 16 * m
    ensures Laid(l, AddressRows(q, k), k).end == l.end + 16 * k
  {
    var rows := AddressRows(q, k);
    forall n: nat | n <= k ensures Laid(l, rows, n).end == l.end + 16 * n {
      AddressesLaid(l, q, k, n);
    }
    StopsThere(l, rows, 0, m);
  }

  /** Four bytes of room do not refuse an address. */
  lemma {:induction false} AddressesTaken(l: Layout, q: seq<byte>, k: nat)
    requires q in l.locs && k >= 32
    ensures !LastRefused(l, AddressRows(q, k))
  {
    AddressesStop(l, q, k, 32);
    AddressesLaid(l, q, k, Stop(l, AddressRows(q, k), 0) - 1);
  }

  /** More addresses than fit: 31 complete answers are in the response, and 30 are counted. */
  method CountedShort(resolver: Resolver, packet: array<byte>, q: seq<byte>, start: nat, k: nat)
    returns (e: Event, length: nat, answers: nat, ghost n: nat)
    requires GoodName(q) && packet.Length == 1024 && start <= 512 && k >= 32
    requires q in resolver.pointerLocations && Located(packet[..start], resolver.pointerLocations)
    modifies resolver, packet
    ensures e == Done && answers == 30 && n == 31 && start + length <= packet.Length
    ensures GoodRows(AddressRows(q, k))
    ensures Answered(packet[..start + length], start, AddressRows(q, k), n, start + length)
  {
    ghost var l := Layout(start, resolver.pointerLocations);
    AddressesGood(q, k);
    AddressesStop(l, q, k, 32);
    AddressesTaken(l, q, k);
    var truncated;
    e, length, answers, truncated, n := resolver.ResolveA(AddressRows(q, k), packet, start);
    assert ComesTo(l, AddressRows(q, k), packet.Length, e);
  }

  /** Twenty addresses after a question of 182 bytes: the datagram is cut, and not marked. */
  method CutUnmarked(resolver: Resolver, packet: array<byte>, q: seq<byte>) returns (e: Event, sent: nat, tc: bool)
    requires GoodName(q) && packet.Length == 1024
    requires q in resolver.pointerLocations && Located(packet[..194], resolver.pointerLocations)
    modifies resolver, packet
    ensures e == Done && !tc && sent <= packet.Length && GoodRows(AddressRows(q, 20))
    ensures !Carries(packet[..sent], 194, AnswersOf(AddressRows(q, 20)))
  {
    var rows := AddressRows(q, 20);
    ghost var l := Layout(194, resolver.pointerLocations);
    AddressesGood(q, 20);
    AddressesStop(l, q, 20, 20);
    WholeTaken(l, rows);
    ghost var n;
    e, sent, tc, n := resolver.Respond(rows, packet, 194);
    assert ComesTo(l, rows, packet.Length, e);
  }

  // ----- A record that is refused

  /** An alias, and then 30 addresses. */
  function AliasedRows(q: seq<byte>, v: seq<byte>): (rows: seq<Row>)
    ensures |rows| == 31
  {
    [Row(60, q, v, TYPE_CNAME, 1)] + AddressRows(q, 30)
  }

  lemma {:induction false} AliasedLaid(l: Layout, q: seq<byte>, v: seq<byte>, n: nat)
    requires q in l.locs && |v| == 10 && 1 <= n <= 31
    ensures Laid(l, AliasedRows(q, v), n).end == l.end + 8 + 16 * n && q in Laid(l, AliasedRows(q, v), n).locs
    decreases n
  {
    var rows := AliasedRows(q, v);
    assert Laid(l, rows, n) == After(Laid(l, rows, n - 1), rows[n - 1]);
    if n > 1 {
      AliasedLaid(l, q, v, n - 1);
      assert rows[n - 1] == AddressRows(q, 30)[n - 2];
    }
  }

  lemma {:induction false} AliasedStop(l: Layout, q: seq<byte>, v: seq<byte>, m: nat)
    requires q in l.locs && |v| == 10 && m == 31
    ensures Stop(l, AliasedRows(q, v), 0) == m && RoomAfter(l, AliasedRows(q, v), m - 1) == 12
    ensures LastEnd(l, AliasedRows(q, v)) == l.end + 504
  {
    var rows := AliasedRows(q, v);
    forall n: nat | n < m ensures Laid(l, rows, n).end - l.end < LIMIT {
      if n > 0 {
        AliasedLaid(l, q, v, n);
      }
    }
    AliasedLaid(l, q, v, m - 1);
    AliasedLaid(l, q, v, m);
    StopsThere(l, rows, 0, m);
  }

  /** Before the last address 12 bytes are left; for its four bytes `memcpy_s` is told that there is no room. */
  lemma {:induction false} AliasedRefused(l: Layout, q: seq<byte>, v: seq<byte>, k: nat)
    requires q in l.locs && |v| == 10 && k == 30
    ensures LastRefused(l, AliasedRows(q, v))
  {
    var rows := AliasedRows(q, v);
    AliasedStop(l, q, v, k + 1);
    AliasedLaid(l, q, v, k);
    assert rows[k] == AddressRows(q, 30)[k - 1];
    assert Stop(l, rows, 0) - 1 == k;
  }

  lemma {:induction false} AliasedGood(q: seq<byte>, v: seq<byte>)
    requires GoodName(q) && GoodName(v) && |v| <= 255
    ensures GoodRows(AliasedRows(q, v))
  {
    AddressesGood(q, 30);
  }

  /** So nothing is sent. */
  method NotSent(resolver: Resolver, packet: array<byte>, q: seq<byte>, v: seq<byte>, start: nat)
    returns (e: Event, sent: nat, tc: bool)
    requires GoodName(q) && GoodName(v) && |v| == 10 && start + 504 <= packet.Length <= 0x4000
    requires q in resolver.pointerLocations && Located(packet[..start], resolver.pointerLocations)
    modifies resolver, packet
    ensures e == Refused
  {
    AliasedGood(q, v);
    ghost var l := Layout(start, resolver.pointerLocations);
    AliasedStop(l, q, v, 31);
    AliasedRefused(l, q, v, 30);
    ghost var n;
    e, sent, tc, n := resolver.Respond(AliasedRows(q, v), packet, start);
    assert ComesTo(l, AliasedRows(q, v), packet.Length, e);
  }

  // ----- A record that leaves the buffer

  /** A name of three labels of 63 bytes and one of k. */
  function LongName(k: nat): seq<byte> {
    Dotted([Letters(63), Letters(63), Letters(63), Letters(k)])
  }

  function Letters(k: nat): (l: Label)
    ensures |l| == k && DOT !in l
  {
    seq(k, _ => 97)
  }

  lemma {:induction false} LongNameGood(k: nat)
    requires 1 <= k <= 63
    ensures GoodName(LongName(k)) && |LongName(k)| == 192 + k
  {
    var ls := [Letters(63), Letters(63), Letters(63), Letters(k)];
    LabelsDotted(ls);
    FourGood(ls);
    FourTrail(ls);
    TrailDotted(ls);
  }

  lemma {:induction false} FourGood(ls: seq<Label>)
    requires |ls| == 4 && forall i :: 0 <= i < 4 ==> GoodLabel(ls[i])
    ensures GoodLabels(ls)
  {
    assert GoodLabels(ls[1..][1..][1..][1..]);
    assert GoodLabels(ls[1..][1..][1..]);
    assert GoodLabels(ls[1..][1..]);
  }

  lemma {:induction false} FourTrail(ls: seq<Label>)
    requires |ls| == 4
    ensures |Trail(ls)| == |ls[0]| + |ls[1]| + |ls[2]| + |ls[3]| + 4
  {
    assert |Trail(ls[1..][1..][1..])| == |ls[3]| + 1;
    assert |Trail(ls[1..][1..])| == |ls[2]| + |ls[3]| + 2;
  }

  /** Three aliases of a name. */
  function LongRows(q: seq<byte>, v: seq<byte>, w: seq<byte>): (rows: seq<Row>)
    ensures |rows| == 3
  {
    [Row(60, q, v, TYPE_CNAME, 1), Row(60, q, w, TYPE_CNAME, 1), Row(60, q, v, TYPE_CNAME, 1)]
  }

  lemma {:induction false} LongLaid(l: Layout, q: seq<byte>, v: seq<byte>, w: seq<byte>)
    requires q in l.locs && |v| == 255 && |w| == 215
    ensures var rows := LongRows(q, v, w);
      && Laid(l, rows, 1).end == l.end + 269 && Laid(l, rows, 2).end == l.end + 498
      && Laid(l, rows, 3).end == l.end + 767 && q in Laid(l, rows, 2).locs
  {
    var rows := LongRows(q, v, w);
    assert Laid(l, rows, 1) == After(l, rows[0]);
    assert Laid(l, rows, 2) == After(Laid(l, rows, 1), rows[1]);
    assert Laid(l, rows, 3) == After(Laid(l, rows, 2), rows[2]);
  }

  lemma {:induction false} LongStop(l: Layout, q: seq<byte>, v: seq<byte>, w: seq<byte>)
    requires q in l.locs && |v| == 255 && |w| == 215
    ensures Stop(l, LongRows(q, v, w), 0) == 3 && LastEnd(l, LongRows(q, v, w)) == l.end + 767
  {
    LongLaid(l, q, v, w);
    forall k: nat | k < 3 ensures Laid(l, LongRows(q, v, w), k).end - l.end < LIMIT {
      assert k == 0 || k == 1 || k == 2;
    }
    StopsThere(l, LongRows(q, v, w), 0, 3);
  }

  lemma {:induction false} LongGood(q: seq<byte>, v: seq<byte>, w: seq<byte>)
    requires GoodName(q) && GoodName(v) && GoodName(w) && |v| == 255 && |w| == 215
    ensures GoodRows(LongRows(q, v, w))
  {
  }

  /** Two bytes of room take the pointer; what is left for the rest is negative and refuses nothing. */
  lemma {:induction false} PointerTakes(r: Row, locs: Locations)
    requires r.name in locs && r.rtype == TYPE_CNAME
    ensures !RecordRefused(r, locs, 2)
  {
    NegativeTakes(-10, Labels(r.value));
  }

  lemma {:induction false} LongTaken(l: Layout, q: seq<byte>, v: seq<byte>, w: seq<byte>)
    requires q in l.locs && |v| == 255 && |w| == 215
    ensures !LastRefused(l, LongRows(q, v, w))
  {
    var rows := LongRows(q, v, w);
    LongLaid(l, q, v, w);
    LongStop(l, q, v, w);
    var k := Stop(l, rows, 0) - 1;
    assert k == 2 && RoomAfter(l, rows, k) == 2 && rows[k].name == q && rows[k].rtype == TYPE_CNAME;
    PointerTakes(rows[k], Laid(l, rows, k).locs);
  }

  lemma {:induction false} NegativeTakes(room: int, ls: seq<Label>)
    requires room < 0
    ensures !AnyRefused(room, ls)
  {
    if ls != [] {
      NegativeTakes(room, ls[1..]);
    }
  }

  /**
    After a question with a name of 254 bytes, aliases of 255, 215 and 255 bytes end at 1039, behind the 1024
    bytes of the packet. There are such names: `LongName(62)`, `LongName(63)` and `LongName(23)`.
   */
  method BufferLeft(resolver: Resolver, packet: array<byte>, q: seq<byte>, v: seq<byte>, w: seq<byte>)
    returns (e: Event, sent: nat, tc: bool)
    requires GoodName(q) && GoodName(v) && GoodName(w) && |q| == 254 && |v| == 255 && |w| == 215
    requires packet.Length == 1024 && resolver.pointerLocations == map[q := HEADER]
    requires WireAt(packet[..272], HEADER, q)
    modifies resolver, packet
    ensures e == Overrun
  {
    ghost var l := Layout(272, resolver.pointerLocations);
    LongGood(q, v, w);
    LongStop(l, q, v, w);
    LongTaken(l, q, v, w);
    ghost var n;
    e, sent, tc, n := resolver.Respond(LongRows(q, v, w), packet, 272);
    assert ComesTo(l, LongRows(q, v, w), packet.Length, e);
  }

  // ----- A type that is not read as it was asked for

  /** Type 255, `QTYPE_ALL`, is read as 65535. */
  method TypeMisread(resolver: Resolver, packet: array<byte>, q: seq<byte>)
    returns (qname: seq<byte>, length: nat, qtype: nat, qclass: nat)
    requires resolver.pointerLocations == map[] && |q| <= 254 && 0 !in q && WireAt(packet[..], HEADER, q)
    requires HEADER + |q| + 6 <= packet.Length && Read2(packet[..], HEADER + |q| + 2) == 255
    modifies resolver
    ensures qtype == 65535
  {
    qname, length, qtype, qclass := resolver.ExtractQuery(packet, q);
  }
}
