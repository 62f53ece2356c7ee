/**
  The room that `DNSResourceRecord::encode` tells `memcpy_s` (DNS/DNSResourceRecord.cpp, DNS/DNSRDataA.cpp,
  DNS/DNSRDataCNAME.cpp, DNS/DNSUtil.cpp): when a record is written, when it is refused, and when it leaves the
  buffer.
 */
module DnsRoom {
  import opened Bytes
  import opened DnsNames
  import opened DnsEncode
  import opened DnsDecode
  import opened DnsRecords

  // ----- What writing a record comes to

  function OwnerEvent(r: Row, locs: Locations, at: nat, room: int, cap: nat): Event {
    if r.name in locs then CopyEvent(at, 2, room, cap) else NameEvent(Pieces(r.name), at, room, cap)
  }

  function DataEvent(r: Row, at: nat, room: int, cap: nat): Event {
    if r.rtype == TYPE_A then CopyEvent(at, 4, room, cap) else NameEvent(Pieces(r.value), at, room, cap)
  }

  /** Name and data, each with what is left of the room. */
  function EndsEvent(r: Row, locs: Locations, at: nat, room: int, cap: nat): Event {
    var n := OwnerSize(r, locs);
    var owner := OwnerEvent(r, locs, at, room, cap);
    if owner == Done then DataEvent(r, at + n + 10, room - n - 10, cap) else owner
  }

  /** The fixed part comes last. */
  function RecordEvent(r: Row, locs: Locations, at: nat, room: int, cap: nat): Event {
    var n, d := OwnerSize(r, locs), DataSize(r);
    var ends := EndsEvent(r, locs, at, room, cap);
    if ends == Done then CopyEvent(at + n, 10, room - n - d, cap) else ends
  }

  // ----- When it is refused

  predicate OwnerRefused(r: Row, locs: Locations, room: int) {
    if r.name in locs then Refuses(room, 2) else AnyRefused(room, Labels(r.name))
  }

  predicate DataRefused(r: Row, room: int) {
    if r.rtype == TYPE_A then Refuses(room, 4) else AnyRefused(room, Labels(r.value))
  }

  /** One of the parts of a record is longer than the room that is told for it. */
  predicate RecordRefused(r: Row, locs: Locations, room: int) {
    var n, d := OwnerSize(r, locs), DataSize(r);
    OwnerRefused(r, locs, room) || DataRefused(r, room - n - 10) || Refuses(room - n - d, 10)
  }

  lemma {:induction false} NameIs(name: seq<byte>, at: nat, room: int, cap: nat)
    requires GoodName(name)
    ensures var e := NameEvent(Pieces(name), at, room, cap);
      && (e == Done <==> at + |name| + 2 <= cap && !AnyRefused(room, Labels(name)))
      && (e == Refused ==> AnyRefused(room, Labels(name))) && (e == Overrun ==> at + |name| + 2 > cap)
  {
    GoodIsShort(name);
    WireOfName(name);
    NameEventIs(Labels(name), at, room, cap);
  }

  lemma {:induction false} EndsEventIs(r: Row, locs: Locations, at: nat, room: int, cap: nat)
    requires GoodRow(r)
    ensures var e := EndsEvent(r, locs, at, room, cap);
      var refused := OwnerRefused(r, locs, room) || DataRefused(r, room - OwnerSize(r, locs) - 10);
      && (e == Done <==> at + RecordSize(r, locs) <= cap && !refused)
      && (e == Refused ==> refused) && (e == Overrun ==> at + RecordSize(r, locs) > cap)
  {
    var n := OwnerSize(r, locs);
    if r.name !in locs {
      NameIs(r.name, at, room, cap);
    }
    if r.rtype != TYPE_A {
      NameIs(r.value, at + n + 10, room - n - 10, cap);
    }
  }

  /** A record is written exactly when it fits the buffer and no part is refused. */
  lemma {:induction false} RecordEventIs(r: Row, locs: Locations, at: nat, room: int, cap: nat)
    requires GoodRow(r)
    ensures var e := RecordEvent(r, locs, at, room, cap);
      && (e == Done <==> at + RecordSize(r, locs) <= cap && !RecordRefused(r, locs, room))
      && (e == Refused ==> RecordRefused(r, locs, room)) && (e == Overrun ==> at + RecordSize(r, locs) > cap)
  {
    EndsEventIs(r, locs, at, room, cap);
  }

  lemma {:induction false} NameTaken(name: seq<byte>, room: int)
    requires GoodName(name) && |name| <= room
    ensures !AnyRefused(room, Labels(name))
  {
    GoodIsShort(name);
    WireOfName(name);
    RoomTakes(Labels(name), room);
  }

  /** Nothing of a record is refused that leaves some of the room: that is not the last one of a truncated response. */
  lemma {:induction false} WithinNotRefused(r: Row, locs: Locations, room: int)
    requires GoodRow(r) && RecordSize(r, locs) <= room
    ensures !RecordRefused(r, locs, room)
  {
    if r.name !in locs {
      NameTaken(r.name, room);
    }
    if r.rtype != TYPE_A {
      NameTaken(r.value, room - OwnerSize(r, locs) - 10);
    }
  }
}
