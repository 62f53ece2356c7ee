/** `DNSUtil::encodeName` (DNS/DNSUtil.cpp). */
module DnsEncode {
  import opened Bytes
  import opened DnsNames

  method FindDot(name: seq<byte>) returns (d: nat)
    ensures d == FirstDot(name)
  {
    d := 0;
    while d < |name| && name[d] != DOT
      invariant 0 <= d <= |name| && FirstDot(name) == d + FirstDot(name[d..])
    {
      assert name[d..][1..] == name[d + 1..];
      d := d + 1;
    }
  }

  /** The array holds `w` from `at` on and is otherwise as it was. */
  ghost predicate Holds(output: array<byte>, was: seq<byte>, at: nat, w: seq<byte>)
    reads output
  {
    at + |w| <= |was| == output.Length && output[..] == was[..at] + w + was[at + |w|..]
  }

  method Append(output: array<byte>, ghost was: seq<byte>, at: nat, ghost w: seq<byte>, total: nat, data: seq<byte>)
    requires Holds(output, was, at, w) && total == |w| && at + |w| + |data| <= |was|
    modifies output
    ensures Holds(output, was, at, w + data)
  {
    CopyInto(output, at + total, data);
    assert output[..] == was[..at] + w + data + was[at + |w| + |data|..];
    Assoc(was[..at], w, data);
  }

  /**
    What the code takes for the labels: it cuts at the dots, but keeps the length of a label in eight bits and
    goes on that far behind its beginning.
   */
  function Pieces(name: seq<byte>): (ls: seq<Label>)
    ensures ls != []
    decreases |name|
  {
    var d := FirstDot(name);
    if d == |name| then [name[..d % 256]] else [name[..d % 256]] + Pieces(name[d % 256 + 1..])
  }

  lemma {:induction false} PiecesShort(name: seq<byte>)
    ensures ShortLabels(Pieces(name))
    decreases |name|
  {
    var d := FirstDot(name);
    if d < |name| {
      PiecesShort(name[d % 256 + 1..]);
      assert Pieces(name)[1..] == Pieces(name[d % 256 + 1..]);
    }
  }

  /** They are the labels exactly when no label has 256 bytes or more. */
  lemma {:induction false} PiecesAreLabels(name: seq<byte>)
    ensures Pieces(name) == Labels(name) <==> ShortLabels(Labels(name))
    decreases |name|
  {
    PiecesShort(name);
    if ShortLabels(Labels(name)) {
      var d := FirstDot(name);
      assert Labels(name)[0] == name[..d] && d < 256;
      if d < |name| {
        assert Labels(name)[1..] == Labels(name[d + 1..]);
        PiecesAreLabels(name[d + 1..]);
      }
    }
  }

  /** The wire form that is written. */
  function PiecesWire(name: seq<byte>): seq<byte> {
    PiecesShort(name);
    Wire(Pieces(name))
  }

  /** By the first piece: with a dot after it, and without. */
  lemma {:induction false} WireMore(name: seq<byte>, d: nat, rest: seq<byte>)
    requires FirstDot(name) == d < |name| && rest == name[d % 256 + 1..]
    ensures PiecesWire(name) == Part(name[..d % 256]) + PiecesWire(rest)
  {
    PiecesShort(name);
    PiecesShort(rest);
    WireCons(Pieces(name), name[..d % 256], Pieces(rest));
  }

  lemma {:induction false} WireLast(name: seq<byte>)
    requires FirstDot(name) == |name|
    ensures PiecesWire(name) == Part(name[..|name| % 256]) + [0]
  {
    PiecesShort(name);
    WireCons(Pieces(name), name[..|name| % 256], []);
  }

  // ----- What can stop the writing

  /** A write goes through, is refused by `memcpy_s`, which ends the process, or leaves the buffer. */
  datatype Event = Done | Refused | Overrun

  /** `memcpy_s` refuses a count above the room it is told. A negative room is taken as a size, and is no limit. */
  predicate Refuses(room: int, count: nat) { 0 <= room < count }

  function CopyEvent(at: nat, count: nat, room: int, cap: nat): Event {
    if Refuses(room, count) then Refused else if at + count > cap then Overrun else Done
  }

  /** What writing labels at an offset of a buffer comes to; every label is told the same room. */
  function NameEvent(ls: seq<Label>, at: nat, room: int, cap: nat): Event {
    if at >= cap then Overrun
    else if ls == [] then Done
    else
      var e := CopyEvent(at + 1, |ls[0]|, room, cap);
      if e == Done then NameEvent(ls[1..], at + 1 + |ls[0]|, room, cap) else e
  }

  predicate AnyRefused(room: int, ls: seq<Label>) {
    ls != [] && (Refuses(room, |ls[0]|) || AnyRefused(room, ls[1..]))
  }

  /** It goes through exactly when the wire form fits the buffer and no label is longer than the room. */
  lemma {:induction false} NameEventIs(ls: seq<Label>, at: nat, room: int, cap: nat)
    requires ShortLabels(ls)
    ensures NameEvent(ls, at, room, cap) == Done <==> at + |Wire(ls)| <= cap && !AnyRefused(room, ls)
    ensures NameEvent(ls, at, room, cap) == Refused ==> AnyRefused(room, ls)
    ensures NameEvent(ls, at, room, cap) == Overrun ==> at + |Wire(ls)| > cap
    decreases |ls|
  {
    if ls != [] {
      WireLength(ls[1..]);
      NameEventIs(ls[1..], at + 1 + |ls[0]|, room, cap);
    }
  }

  /** No label is refused by a room that takes the whole name. */
  lemma {:induction false} RoomTakes(ls: seq<Label>, room: int)
    requires ShortLabels(ls) && (room < 0 || |Wire(ls)| <= room + 2)
    ensures !AnyRefused(room, ls)
    decreases |ls|
  {
    if ls != [] {
      WireLength(ls[1..]);
      RoomTakes(ls[1..], room);
    }
  }

  // ----- The code

  /** What is still to be written, and what that comes to. */
  ghost function Left(read: bool, rest: seq<byte>): seq<byte> {
    if read then PiecesWire(rest) else [0]
  }

  ghost function LeftEvent(read: bool, rest: seq<byte>, at: nat, room: int, cap: nat): Event {
    NameEvent(if read then Pieces(rest) else [], at, room, cap)
  }

  lemma {:induction false} EventMore(rest: seq<byte>, at: nat, room: int, cap: nat)
    ensures var len := FirstDot(rest) % 256; var e := CopyEvent(at + 1, len, room, cap);
      NameEvent(Pieces(rest), at, room, cap) ==
        if at >= cap then Overrun
        else if e != Done then e
        else if FirstDot(rest) < |rest| then LeftEvent(true, rest[len + 1..], at + 1 + len, room, cap)
        else LeftEvent(false, rest, at + 1 + len, room, cap)
  {
    var ls := Pieces(rest);
    if FirstDot(rest) < |rest| {
      assert ls[1..] == Pieces(rest[FirstDot(rest) % 256 + 1..]);
    } else {
      assert ls[1..] == [];
    }
  }

  /** One label is written, and the search goes on after it if there was a dot. */
  method EncodeLabel(rest: seq<byte>, output: array<byte>, ghost was: seq<byte>, at: nat, ghost w: seq<byte>,
                     total: nat, room: int, ghost outcome: Event)
    returns (e: Event, part: seq<byte>, read: bool, rest': seq<byte>, total': nat)
    requires Holds(output, was, at, w) && total == |w|
    requires outcome == LeftEvent(true, rest, at + total, room, output.Length)
    modifies output
    ensures e != Done ==> e == outcome
    ensures e == Done ==> Holds(output, was, at, w + part) && PiecesWire(rest) == part + Left(read, rest')
    ensures e == Done ==> total' == |w + part| && outcome == LeftEvent(read, rest', at + total', room, output.Length)
    ensures read ==> |rest'| < |rest|
  {
    var ptr := FindDot(rest);
    var len := ptr % 256;
    part, read, rest' := [len] + rest[..len], ptr < |rest|, rest;
    total' := total + 1 + len;
    EventMore(rest, at + total, room, output.Length);
    if read {
      rest' := rest[len + 1..];
      WireMore(rest, ptr, rest');
    } else {
      WireLast(rest);
    }
    if at + total >= output.Length {
      e := Overrun;
    } else {
      e := CopyEvent(at + total + 1, len, room, output.Length);
    }
    if e == Done {
      Append(output, was, at, w, total, part);
    }
  }

  /**
    `encodeName`: its pieces, each after its length, and a zero; reports the bytes written. For a name
    without labels of 256 bytes or more this is its wire form. `room` is what `memcpy_s` is told.
   */
  method EncodeName(name: seq<byte>, output: array<byte>, at: nat, room: int) returns (e: Event, total: nat)
    modifies output
    ensures e == NameEvent(Pieces(name), at, room, output.Length)
    ensures e == Done ==> total == |PiecesWire(name)| && Holds(output, old(output[..]), at, PiecesWire(name))
  {
    total := 0;
    if at >= output.Length {
      return Overrun, total;
    }
    ghost var was, wire, w: seq<byte> := output[..], PiecesWire(name), [];
    ghost var outcome := NameEvent(Pieces(name), at, room, output.Length);
    var rest, read := name, true;
    while read
      invariant total == |w| && Holds(output, was, at, w) && wire == w + Left(read, rest)
      invariant outcome == LeftEvent(read, rest, at + total, room, output.Length)
      decreases read, |rest|
    {
      var part;
      e, part, read, rest, total := EncodeLabel(rest, output, was, at, w, total, room, outcome);
      if e != Done {
        return;
      }
      Assoc(w, part, Left(read, rest));
      w := w + part;
    }
    if at + total >= output.Length {
      return Overrun, total;
    }
    Append(output, was, at, w, total, [0]);
    e, total := Done, total + 1;
  }

  lemma {:induction false} WireOfName(name: seq<byte>)
    requires ShortLabels(Labels(name))
    ensures |Wire(Labels(name))| == |name| + 2 && PiecesWire(name) == Wire(Labels(name)) && Pieces(name) == Labels(name)
  {
    WireLength(Labels(name));
    TrailDotted(Labels(name));
    DottedLabels(name);
    PiecesAreLabels(name);
  }

  lemma {:induction false} ShortAre(name: seq<byte>)
    requires |name| <= 255
    ensures ShortLabels(Labels(name))
    decreases |name|
  {
    var d := FirstDot(name);
    if d < |name| {
      ShortAre(name[d + 1..]);
      assert Labels(name)[1..] == Labels(name[d + 1..]);
    }
  }

  /** Names of up to 255 bytes have no such labels. */
  lemma {:induction false} ShortNamesCut(name: seq<byte>)
    requires |name| <= 255
    ensures Pieces(name) == Labels(name)
  {
    ShortAre(name);
    PiecesAreLabels(name);
  }

  /** A label of 256 bytes is written as an empty one. */
  lemma {:induction false} LongLabelLost(name: seq<byte>)
    requires |name| == 256 && DOT !in name
    ensures Labels(name) == [name] && Pieces(name) == [[]]
  {
    FirstDotIs(name);
  }
}
