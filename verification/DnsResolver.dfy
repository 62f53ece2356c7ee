/** The resolver's questions and answers (DNS/DNSResolver.cpp, DNS/DNSQuery.cpp, DNS/DNSResourceRecord.cpp). */
module DnsResolver {
  import opened Bytes
  import opened DnsNames
  import opened DnsEncode
  import opened DnsDecode
  import opened DnsQuad
  import opened DnsRecords
  import opened DnsRoom

  const HEADER := 12
  const DATAGRAM := 512 // MAX_DNS_PACKET_LENGTH

  // ----- A question

  /** A name in full at an offset can be decoded there. */
  lemma {:induction false} FullNameReadable(p: seq<byte>, at: nat, name: seq<byte>)
    requires WireAt(p, at, name) && |name| <= 254
    ensures Terminated(p, at) && Readable(p, at, 256, Labels(name))
    ensures forall n :: !Trapped(p, Cursor(at, 0), 256, n)
    ensures forall ls :: Readable(p, at, 256, ls) ==> Dotted(ls) == name
  {
    GoodIsShort(name);
    var w := NameWire(name);
    var b := p[at + |w|..];
    Around(p, at, w, []);
    assert p + [] == p && b + [] == b;
    WireReadable(name, p[..at], b, p);
  }

  /** A signed char as an unsigned 16-bit number. */
  function Widened(b: byte): nat { if b < 128 then b else 0xFF00 + b }

  /** The high byte is what widening the low byte gives. */
  predicate Extends(high: byte, low: byte) { high as int == if low < 128 then 0 else 255 }

  method CString(buf: array<byte>, ghost name: seq<byte>) returns (s: seq<byte>)
    requires |name| < buf.Length && buf[..|name| + 1] == name + [0] && 0 !in name
    ensures s == name
  {
    assert buf[|name|] == buf[..|name| + 1][|name|] == 0;
    assert forall i :: 0 <= i < |name| ==> buf[i] == buf[..|name| + 1][i] == name[i] != 0;
    var n := StrLen(buf[..], 0);
    s := buf[..n];
  }

  // ----- A reply

  /** Where a message ends and where names stand in it. */
  datatype Layout = Layout(end: nat, locs: Locations)

  function After(l: Layout, r: Row): Layout {
    Layout(l.end + RecordSize(r, l.locs), NextLocs(r, l.locs, l.end))
  }

  /** The layout when records for the first n rows have been added, each under the one before it. */
  function Laid(l: Layout, rows: seq<Row>, n: nat): Layout
    requires n <= |rows|
  {
    if n == 0 then l else After(Laid(l, rows, n - 1), rows[n - 1])
  }

  lemma {:induction false} LaidGrows(l: Layout, rows: seq<Row>, m: nat, n: nat)
    requires m <= n <= |rows|
    ensures Laid(l, rows, m).end <= Laid(l, rows, n).end
    decreases n
  {
    if m < n {
      LaidGrows(l, rows, m, n - 1);
    }
  }

  // The quantifiers keep bytes closed where they are not looked at.

  ghost predicate IsOwner(r: Row, locs: Locations, w: seq<byte>) {
    forall n, l {:trigger NameField(n, l)} :: n == r.name && l == locs && GoodName(n) ==> w == NameField(n, l)
  }

  ghost predicate IsData(r: Row, w: seq<byte>) {
    forall q {:trigger RData(q)} :: q == r && GoodRow(q) ==> w == RData(q)
  }

  /** The second bytes are the first with a record for r. */
  ghost predicate Adds(s: seq<byte>, locs: Locations, r: Row, t: seq<byte>) {
    |t| == |s| + RecordSize(r, locs) &&
    forall q, l {:trigger RecordBytes(q, l)} :: q == r && l == locs && GoodRow(q) ==> t == s + RecordBytes(q, l)
  }

  /** The bytes of a message with records for the first n rows after it. */
  ghost predicate Reply(message: seq<byte>, locs: Locations, rows: seq<Row>, n: nat, s: seq<byte>)
    requires n <= |rows|
  {
    if n == 0 then s == message
    else
      var m := n - 1;
      exists t :: Reply(message, locs, rows, m, t) && Adds(t, Laid(Layout(|message|, locs), rows, m).locs, rows[m], s)
  }

  lemma {:induction false} ReplyKeeps(message: seq<byte>, locs: Locations, rows: seq<Row>, n: nat, s: seq<byte>)
    requires GoodRows(rows) && n <= |rows| && Reply(message, locs, rows, n, s)
    ensures message <= s
    decreases n
  {
    if n > 0 {
      var m := n - 1;
      var before := Laid(Layout(|message|, locs), rows, m).locs;
      var t :| Reply(message, locs, rows, m, t) && Adds(t, before, rows[m], s);
      ReplyKeeps(message, locs, rows, m, t);
      assert s == t + RecordBytes(rows[m], before);
    }
  }

  /** A reply to the first n rows, and its layout. */
  ghost predicate Stands(message: seq<byte>, locs: Locations, rows: seq<Row>, n: nat, s: seq<byte>, l: Layout) {
    n <= |rows| && forall k: nat {:trigger Laid(Layout(|message|, locs), rows, k)} :: k == n ==>
      Laid(Layout(|message|, locs), rows, k) == l && Reply(message, locs, rows, k, s)
  }

  const LIMIT := 500 // MAX_DNS_PACKET_LENGTH - sizeof(DNSHeader)

  /** How many records are written from row n on: up to the first with which they take the limit or more. */
  function Stop(l: Layout, rows: seq<Row>, n: nat): (stop: nat)
    requires n <= |rows|
    ensures n <= stop <= |rows|
    decreases |rows| - n
  {
    if n == |rows| || Laid(l, rows, n).end - l.end >= LIMIT then n else Stop(l, rows, n + 1)
  }

  lemma {:induction false} StopsThere(l: Layout, rows: seq<Row>, n: nat, m: nat)
    requires n <= m <= |rows| && forall k: nat :: n <= k < m ==> Laid(l, rows, k).end - l.end < LIMIT
    requires m == |rows| || Laid(l, rows, m).end - l.end >= LIMIT
    ensures Stop(l, rows, n) == m
    decreases m - n
  {
    if n < m {
      StopsThere(l, rows, n + 1, m);
    }
  }

  /** Where the last record that is written ends. */
  function LastEnd(l: Layout, rows: seq<Row>): nat {
    Laid(l, rows, Stop(l, rows, 0)).end
  }

  /** Records are written for `stop` rows and end at `total`. */
  ghost predicate StopsAt(l: Layout, rows: seq<Row>, stop: nat, total: nat) {
    && stop <= |rows| && (stop == |rows| || total - l.end >= LIMIT) && (stop == 0 ==> total == l.end)
    && forall k: nat {:trigger Laid(l, rows, k)} ::
         (k == stop ==> Laid(l, rows, k).end == total) && (k < stop ==> Laid(l, rows, k).end - l.end < LIMIT)
  }

  lemma {:induction false} StopIs(l: Layout, rows: seq<Row>, n: nat)
    requires n <= |rows| && forall k: nat :: k < n ==> Laid(l, rows, k).end - l.end < LIMIT
    ensures StopsAt(l, rows, Stop(l, rows, n), Laid(l, rows, Stop(l, rows, n)).end)
    decreases |rows| - n
  {
    if n < |rows| && Laid(l, rows, n).end - l.end < LIMIT {
      StopIs(l, rows, n + 1);
    }
  }

  /** The limit is reached exactly when the records of all the rows take that much. */
  lemma {:induction false} StopsForAll(l: Layout, rows: seq<Row>, stop: nat, total: nat)
    requires StopsAt(l, rows, stop, total)
    ensures l.end <= total && (total - l.end >= LIMIT <==> Laid(l, rows, |rows|).end - l.end >= LIMIT)
    ensures total - l.end < LIMIT ==> total == Laid(l, rows, |rows|).end
  {
    assert Laid(l, rows, stop).end == total;
    LaidGrows(l, rows, 0, stop);
    LaidGrows(l, rows, stop, |rows|);
  }

  /** The most that a record for a row takes. */
  function LargestSize(r: Row): nat { |r.name| + 12 + DataSize(r) }

  /** What is written ends within the limit and one record behind the message. */
  lemma {:induction false} LastEndBound(l: Layout, rows: seq<Row>, n: nat, k: nat)
    requires n <= |rows| && Laid(l, rows, n).end < l.end + LIMIT + k
    requires forall i :: 0 <= i < |rows| ==> LargestSize(rows[i]) <= k
    ensures Laid(l, rows, Stop(l, rows, n)).end < l.end + LIMIT + k
    decreases |rows| - n
  {
    if n < |rows| && Laid(l, rows, n).end - l.end < LIMIT {
      assert RecordSize(rows[n], Laid(l, rows, n).locs) <= LargestSize(rows[n]) <= k;
      LastEndBound(l, rows, n + 1, k);
    }
  }

  /** So it fits the buffer of the server if question and largest record leave that much of it. */
  lemma {:induction false} FitsBuffer(l: Layout, rows: seq<Row>, k: nat)
    requires forall i :: 0 <= i < |rows| ==> LargestSize(rows[i]) <= k
    requires l.end + LIMIT - 1 + k <= 2 * DATAGRAM
    ensures LastEnd(l, rows) <= 2 * DATAGRAM
  {
    LastEndBound(l, rows, 0, k);
  }

  /** What is left of the limit behind row n. */
  function RoomAfter(l: Layout, rows: seq<Row>, n: nat): int
    requires n <= |rows|
  {
    LIMIT - (Laid(l, rows, n).end - l.end)
  }

  /** The last record that is written is refused by `memcpy_s`. */
  predicate LastRefused(l: Layout, rows: seq<Row>) {
    var stop := Stop(l, rows, 0);
    stop > 0 && RecordRefused(rows[stop - 1], Laid(l, rows, stop - 1).locs, RoomAfter(l, rows, stop - 1))
  }

  /** What writing that record in a buffer of `cap` bytes comes to. */
  function LastEvent(l: Layout, rows: seq<Row>, cap: nat): Event {
    var stop := Stop(l, rows, 0);
    if stop == 0 then Done
    else
      var before := Laid(l, rows, stop - 1);
      RecordEvent(rows[stop - 1], before.locs, before.end, RoomAfter(l, rows, stop - 1), cap)
  }

  /** It is written exactly when it stays within the buffer and is not refused; otherwise one of these is why. */
  lemma {:induction false} LastEventIs(l: Layout, rows: seq<Row>, cap: nat)
    requires GoodRows(rows) && l.end <= cap
    ensures LastEvent(l, rows, cap) == Done <==> LastEnd(l, rows) <= cap && !LastRefused(l, rows)
    ensures !LastRefused(l, rows) ==> (LastEvent(l, rows, cap) == Overrun <==> LastEnd(l, rows) > cap)
    ensures LastEnd(l, rows) <= cap ==> (LastEvent(l, rows, cap) == Refused <==> LastRefused(l, rows))
  {
    var stop := Stop(l, rows, 0);
    if stop > 0 {
      var k := stop - 1;
      assert Laid(l, rows, stop) == After(Laid(l, rows, k), rows[k]);
      RecordEventIs(rows[k], Laid(l, rows, k).locs, Laid(l, rows, k).end, RoomAfter(l, rows, k), cap);
    }
  }

  // The same with the number of records that are written; the quantifiers keep them closed.

  ghost predicate RefusedAt(l: Layout, rows: seq<Row>, stop: nat) {
    0 < stop <= |rows| && forall k: nat {:trigger Laid(l, rows, k)} :: k == stop - 1 ==>
      RecordRefused(rows[k], Laid(l, rows, k).locs, RoomAfter(l, rows, k))
  }

  ghost predicate EventAt(l: Layout, rows: seq<Row>, stop: nat, cap: nat, e: Event) {
    0 < stop <= |rows| ==> forall k: nat {:trigger Laid(l, rows, k)} :: k == stop - 1 ==>
      e == RecordEvent(rows[k], Laid(l, rows, k).locs, Laid(l, rows, k).end, RoomAfter(l, rows, k), cap)
  }

  lemma {:induction false} RefusedIs(l: Layout, rows: seq<Row>)
    ensures RefusedAt(l, rows, Stop(l, rows, 0)) <==> LastRefused(l, rows)
  {
    var stop := Stop(l, rows, 0);
    if stop > 0 {
      var k := stop - 1;
      assert RefusedAt(l, rows, stop) <==>
        RecordRefused(rows[k], Laid(l, rows, k).locs, RoomAfter(l, rows, k));
    }
  }

  lemma {:induction false} EventIs(l: Layout, rows: seq<Row>, cap: nat, e: Event)
    requires EventAt(l, rows, Stop(l, rows, 0), cap, e) && (Stop(l, rows, 0) == 0 ==> e == Done)
    ensures e == LastEvent(l, rows, cap)
  {
    var stop := Stop(l, rows, 0);
    if stop > 0 {
      var k := stop - 1;
      assert e == RecordEvent(rows[k], Laid(l, rows, k).locs, Laid(l, rows, k).end, RoomAfter(l, rows, k), cap);
    }
  }

  lemma {:induction false} Plan(l: Layout, rows: seq<Row>) returns (stop: nat, total: nat)
    ensures stop == Stop(l, rows, 0) && total == LastEnd(l, rows) && StopsAt(l, rows, stop, total) && l.end <= total
    ensures total - l.end >= LIMIT <==> Laid(l, rows, |rows|).end - l.end >= LIMIT
    ensures total - l.end < LIMIT ==> total == Laid(l, rows, |rows|).end
    ensures RefusedAt(l, rows, stop) <==> LastRefused(l, rows)
  {
    stop, total := Stop(l, rows, 0), LastEnd(l, rows);
    StopIs(l, rows, 0);
    StopsForAll(l, rows, stop, total);
    RefusedIs(l, rows);
  }

  /** Nothing is refused without truncation. */
  lemma {:induction false} RefusedTruncates(l: Layout, rows: seq<Row>)
    requires GoodRows(rows) && LastRefused(l, rows)
    ensures Laid(l, rows, |rows|).end - l.end >= LIMIT
  {
    var stop, total := Plan(l, rows);
    var k := stop - 1;
    assert Laid(l, rows, stop) == After(Laid(l, rows, k), rows[k]);
    if RecordSize(rows[k], Laid(l, rows, k).locs) <= RoomAfter(l, rows, k) {
      WithinNotRefused(rows[k], Laid(l, rows, k).locs, RoomAfter(l, rows, k));
    }
  }

  /** Without truncation all records are written, and the last one is not refused. */
  lemma {:induction false} WholeTaken(l: Layout, rows: seq<Row>)
    requires GoodRows(rows) && Laid(l, rows, |rows|).end - l.end < LIMIT
    ensures LastEnd(l, rows) == Laid(l, rows, |rows|).end && !LastRefused(l, rows)
  {
    var stop, total := Plan(l, rows);
    if LastRefused(l, rows) {
      RefusedTruncates(l, rows);
    }
  }

  lemma {:induction false} StandsStart(message: seq<byte>, locs: Locations, rows: seq<Row>)
    ensures Stands(message, locs, rows, 0, message, Layout(|message|, locs))
  {
    assert Reply(message, locs, rows, 0, message);
  }

  lemma {:induction false} StandsNext(message: seq<byte>, locs: Locations, rows: seq<Row>, i: nat, s: seq<byte>,
                                      l: Layout, t: seq<byte>)
    requires i < |rows| && Stands(message, locs, rows, i, s, l) && Adds(s, l.locs, rows[i], t)
    ensures Stands(message, locs, rows, i + 1, t, After(l, rows[i]))
  {
    assert Laid(Layout(|message|, locs), rows, i) == l;
    var n := i + 1;
    assert Laid(Layout(|message|, locs), rows, n) == After(l, rows[i]);
    ReplyNext(message, locs, rows, i, s, t, n);
  }

  lemma {:induction false} ReplyNext(message: seq<byte>, locs: Locations, rows: seq<Row>, i: nat, s: seq<byte>,
                                     t: seq<byte>, n: nat)
    requires n == i + 1 <= |rows|
    requires Reply(message, locs, rows, i, s)
    requires Adds(s, Laid(Layout(|message|, locs), rows, i).locs, rows[i], t)
    ensures Reply(message, locs, rows, n, t)
  {
  }

  lemma {:induction false} NextFits(message: seq<byte>, locs: Locations, rows: seq<Row>, i: nat, s: seq<byte>,
                                    l: Layout,
                                    stop: nat, total: nat)
    requires i < stop && Stands(message, locs, rows, i, s, l) && StopsAt(Layout(|message|, locs), rows, stop, total)
    ensures l.end < After(l, rows[i]).end <= total
    ensures i + 1 == stop ==> After(l, rows[i]).end == total
    ensures i + 1 < stop ==> After(l, rows[i]).end - |message| < LIMIT
  {
    var l0 := Layout(|message|, locs);
    assert Laid(l0, rows, i) == l;
    assert Laid(l0, rows, i + 1) == After(l, rows[i]) && Laid(l0, rows, stop).end == total;
    LaidGrows(l0, rows, i + 1, stop);
  }

  /** What the loop comes to. */
  ghost predicate Ended(l: Layout, rows: seq<Row>, stop: nat, total: nat, cap: nat, e: Event) {
    forall x {:trigger EndsWith(l, rows, stop, total, cap, x)} :: x == e ==> EndsWith(l, rows, stop, total, cap, x)
  }

  ghost predicate EndsWith(l: Layout, rows: seq<Row>, stop: nat, total: nat, cap: nat, e: Event) {
    && (e == Refused ==> RefusedAt(l, rows, stop)) && (e == Overrun ==> total > cap)
    && (e == Done ==> total <= cap && !RefusedAt(l, rows, stop))
    && (l.end + LIMIT <= cap ==> EventAt(l, rows, stop, cap, e) && (stop == 0 ==> e == Done))
  }

  /**
    What `resolveA` comes to in a packet of `cap` bytes, said of the rows: it ends exactly when the last record that
    is written stays within the packet and is not refused. If the packet takes the message and the limit, as that
    of the server does, that record decides.
   */
  ghost predicate ComesTo(l: Layout, rows: seq<Row>, cap: nat, e: Event) {
    && (e == Done <==> LastEnd(l, rows) <= cap && !LastRefused(l, rows))
    && (e == Refused ==> LastRefused(l, rows)) && (e == Overrun ==> LastEnd(l, rows) > cap)
    && (l.end + LIMIT <= cap ==> e == LastEvent(l, rows, cap))
  }

  /** The same; the quantifier keeps it closed. */
  ghost predicate IsOutcome(l: Layout, rows: seq<Row>, cap: nat, e: Event) {
    forall x {:trigger ComesTo(l, rows, cap, x)} :: x == e ==> ComesTo(l, rows, cap, x)
  }

  lemma {:induction false} EndedEmpty(l: Layout, rows: seq<Row>, total: nat, cap: nat)
    requires StopsAt(l, rows, 0, total) && l.end <= cap
    ensures Ended(l, rows, 0, total, cap, Done)
  {
  }

  lemma {:induction false} EndedIs(l: Layout, rows: seq<Row>, cap: nat, e: Event)
    requires Ended(l, rows, Stop(l, rows, 0), LastEnd(l, rows), cap, e)
    ensures IsOutcome(l, rows, cap, e)
  {
    assert EndsWith(l, rows, Stop(l, rows, 0), LastEnd(l, rows), cap, e);
    RefusedIs(l, rows);
    if l.end + LIMIT <= cap {
      EventIs(l, rows, cap, e);
    }
  }

  /** The last record that is written decides. */
  lemma {:induction false} LastEnds(l0: Layout, rows: seq<Row>, i: nat, l: Layout, total: nat, cap: nat, e: Event)
    requires GoodRows(rows) && i < |rows| && l == Laid(l0, rows, i) && total == After(l, rows[i]).end
    requires e == RecordEvent(rows[i], l.locs, l.end, LIMIT - (l.end - l0.end), cap)
    ensures Ended(l0, rows, i + 1, total, cap, e)
  {
    var stop := i + 1;
    LastHere(l0, rows, i, l, cap, e, stop);
    RecordEventIs(rows[i], l.locs, l.end, LIMIT - (l.end - l0.end), cap);
  }

  lemma {:induction false} LastHere(l0: Layout, rows: seq<Row>, i: nat, l: Layout, cap: nat, e: Event, stop: nat)
    requires stop == i + 1 <= |rows| && l == Laid(l0, rows, i)
    requires e == RecordEvent(rows[i], l.locs, l.end, LIMIT - (l.end - l0.end), cap)
    ensures RefusedAt(l0, rows, stop) <==> RecordRefused(rows[i], l.locs, LIMIT - (l.end - l0.end))
    ensures EventAt(l0, rows, stop, cap, e)
  {
    assert RoomAfter(l0, rows, i) == LIMIT - (l.end - l0.end);
  }

  /** One before it can only leave the buffer, and then so does the last one. */
  lemma {:induction false} EarlyEnds(l0: Layout, rows: seq<Row>, r: Row, l: Layout, stop: nat, total: nat,
                                     cap: nat, e: Event)
    requires GoodRow(r) && l0.end <= l.end && After(l, r).end - l0.end < LIMIT && After(l, r).end <= total
    requires e == RecordEvent(r, l.locs, l.end, LIMIT - (l.end - l0.end), cap) && e != Done
    ensures Ended(l0, rows, stop, total, cap, e)
  {
    RecordEventIs(r, l.locs, l.end, LIMIT - (l.end - l0.end), cap);
    WithinNotRefused(r, l.locs, LIMIT - (l.end - l0.end));
  }

  lemma {:induction false} NextEnds(message: seq<byte>, locs: Locations, rows: seq<Row>, i: nat, s: seq<byte>,
                                    l: Layout, stop: nat, total: nat, cap: nat, e: Event)
    requires GoodRows(rows) && i < stop <= |rows| && Stands(message, locs, rows, i, s, l)
    requires StopsAt(Layout(|message|, locs), rows, stop, total)
    requires e == RecordEvent(rows[i], l.locs, l.end, LIMIT - (l.end - |message|), cap)
    ensures e != Done || i + 1 == stop ==> Ended(Layout(|message|, locs), rows, stop, total, cap, e)
  {
    var l0 := Layout(|message|, locs);
    NextFits(message, locs, rows, i, s, l, stop, total);
    assert Laid(l0, rows, i) == l;
    LaidGrows(l0, rows, 0, i);
    if i + 1 == stop {
      LastEnds(l0, rows, i, l, total, cap, e);
    } else if e != Done {
      EarlyEnds(l0, rows, rows[i], l, stop, total, cap, e);
    }
  }

  lemma {:induction false} AddsDenotes(s: seq<byte>, locs: Locations, r: Row, t: seq<byte>, start: nat,
                                       answers: seq<Answer>)
    requires GoodRow(r) && Adds(s, locs, r, t) && |t| <= 0x4000
    requires Denotes(s, start, answers, |s|) && Located(s, locs)
    ensures Denotes(t, start, answers + [AnswerOf(r)], |t|) && Located(t, NextLocs(r, locs, |s|))
  {
    var record := RecordBytes(r, locs);
    RecordReads(s, r, locs, t);
    RecordLocates(s, r, locs, t);
    DenotesAppend(s, record, start, answers, AnswerOf(r));
  }

  lemma {:induction false} AnswersNext(rows: seq<Row>, m: nat)
    requires GoodRows(rows) && m < |rows|
    ensures GoodRow(rows[m]) && AnswersOf(rows)[..m + 1] == AnswersOf(rows)[..m] + [AnswerOf(rows[m])]
  {
  }

  /** The answers in a reply are read as the rows, in order, and every name in the map stands in full at its place. */
  lemma {:induction false} ReplyDenotes(message: seq<byte>, locs: Locations, rows: seq<Row>, n: nat, s: seq<byte>)
    requires n <= |rows|
    requires GoodRows(rows)
    requires Located(message, locs)
    requires Reply(message, locs, rows, n, s)
    requires |s| <= 0x4000
    ensures |s| == Laid(Layout(|message|, locs), rows, n).end
    ensures Denotes(s, |message|, AnswersOf(rows)[..n], |s|) && Located(s, Laid(Layout(|message|, locs), rows, n).locs)
    decreases n
  {
    if n > 0 {
      var l, r := Laid(Layout(|message|, locs), rows, n - 1), rows[n - 1];
      var t :| Reply(message, locs, rows, n - 1, t) && Adds(t, l.locs, r, s);
      ReplyDenotes(message, locs, rows, n - 1, t);
      AnswersNext(rows, n - 1);
      AddsDenotes(t, l.locs, r, s, |message|, AnswersOf(rows)[..n - 1]);
    }
  }

  /** The bytes from start to end are read as the first n rows. */
  ghost predicate Answered(p: seq<byte>, start: nat, rows: seq<Row>, n: nat, end: nat) {
    n <= |rows| && forall k: nat {:trigger DenotesRows(p, start, rows, k, end)} ::
      k == n ==> DenotesRows(p, start, rows, k, end)
  }

  ghost predicate DenotesRows(p: seq<byte>, start: nat, rows: seq<Row>, n: nat, end: nat) {
    GoodRows(rows) && n <= |rows| && Denotes(p, start, AnswersOf(rows)[..n], end)
  }

  lemma {:induction false} StandsDenotes(message: seq<byte>, locs: Locations, rows: seq<Row>, n: nat, s: seq<byte>,
                                         l: Layout,
                                         start: nat, end: nat)
    requires GoodRows(rows) && Located(message, locs) && Stands(message, locs, rows, n, s, l) && |s| <= 0x4000
    requires start == |message| && end == |s|
    ensures end == l.end && Answered(s, start, rows, n, end) && Located(s, l.locs)
    ensures n <= |rows| && end == Laid(Layout(start, locs), rows, n).end && message <= s
  {
    assert Laid(Layout(|message|, locs), rows, n) == l;
    ReplyKeeps(message, locs, rows, n, s);
    ReplyDenotes(message, locs, rows, n, s);
  }

  // ----- A record

  function Put(s: seq<byte>, at: nat, w: seq<byte>): seq<byte>
    requires at + |w| <= |s|
  {
    s[..at] + w + s[at + |w|..]
  }

  /** The name, the data behind a gap, and the fixed part in the gap make the record. */
  lemma {:induction false} PutRecord(s: seq<byte>, at: nat, name: seq<byte>, n: nat, f: seq<byte>, d: seq<byte>,
                                     s1: seq<byte>, s2: seq<byte>, s3: seq<byte>)
    requires n == |name| && at + n + 10 + |d| <= |s| && |f| == 10
    requires s1 == Put(s, at, name) && s2 == Put(s1, at + n + 10, d) && s3 == Put(s2, at + n, f)
    ensures |s3| == |s| && s3[..at + n + 10 + |d|] == s[..at] + (name + (f + d)) && s3[..at] == s[..at]
  {
    assert s3 == s[..at] + (name + (f + d)) + s[at + n + 10 + |d|..];
  }

  lemma {:induction false} PartsAdd(s: seq<byte>, locs: Locations, r: Row, name: seq<byte>, f: seq<byte>,
                                    d: seq<byte>, t: seq<byte>)
    requires GoodRow(r)
    requires IsOwner(r, locs, name)
    requires IsData(r, d)
    requires |d| < 65536
    requires f == Fixed(r, |d|)
    requires t == s + (name + (f + d))
    ensures Adds(s, locs, r, t)
  {
    assert RecordBytes(r, locs) == NameField(r.name, locs) + (Fixed(r, |RData(r)|) + RData(r));
  }

  method PutBytes(packet: array<byte>, at: nat, w: seq<byte>)
    requires at + |w| <= packet.Length
    modifies packet
    ensures packet[..] == Put(old(packet[..]), at, w)
  {
    CopyInto(packet, at, w);
  }

  lemma {:induction false} SentCarries(p: seq<byte>, start: nat, rows: seq<Row>, n: nat, end: nat, s: seq<byte>,
                                       sent: nat)
    requires GoodRows(rows) && n <= |rows| && start <= end == |p| && Answered(p, start, rows, n, end)
    requires sent == Min(end, DATAGRAM) && s == p[..sent]
    ensures Carries(s, start, AnswersOf(rows)[..n]) <==> end <= DATAGRAM
    ensures n == |rows| ==> AnswersOf(rows)[..n] == AnswersOf(rows)
  {
    assert DenotesRows(p, start, rows, n, end);
    assert n == |rows| ==> AnswersOf(rows)[..n] == AnswersOf(rows);
    CutCarries(p, start, AnswersOf(rows)[..n], sent);
  }

  /** Decrement and increment of a 16-bit count. */
  function OneLess(n: nat): nat { if n == 0 then 65535 else n - 1 }

  function OneMore(n: nat): nat { if n == 65535 then 0 else n + 1 }

  class Resolver {
    var pointerLocations: Locations

    /** `clean` */
    method Clean()
      modifies this
      ensures pointerLocations == map[]
    {
      pointerLocations := map[];
    }

    /**
      `extractQueries` for one question in full: its name, the bytes it takes, the place of its name, and type
      and class from their low bytes, which are what was asked for exactly when the high bytes extend them.
     */
    method ExtractQuery(packet: array<byte>, ghost q: seq<byte>)
      returns (qname: seq<byte>, length: nat, qtype: nat, qclass: nat)
      requires pointerLocations == map[]
      requires |q| <= 254
      requires 0 !in q
      requires WireAt(packet[..], HEADER, q)
      requires HEADER + |q| + 6 <= packet.Length
      modifies this
      ensures qname == q && length == |q| + 6 && pointerLocations == map[q := HEADER]
      ensures Located(packet[..HEADER + length], pointerLocations)
      ensures qtype == Widened(packet[HEADER + |q| + 3]) && qclass == Widened(packet[HEADER + |q| + 5])
      ensures qtype == Read2(packet[..], HEADER + |q| + 2) <==>
        Extends(packet[HEADER + |q| + 2], packet[HEADER + |q| + 3])
      ensures qclass == Read2(packet[..], HEADER + |q| + 4) <==>
        Extends(packet[HEADER + |q| + 4], packet[HEADER + |q| + 5])
    {
      var buf := new byte[256];
      FullNameReadable(packet[..], HEADER, q);
      var r;
      ghost var ls;
      r, ls := DecodeName(packet[..], HEADER, buf, 256);
      qname := CString(buf, q);
      var srcLoc := HEADER + r.bytesRead;
      qtype, qclass := Widened(packet[srcLoc + 1]), Widened(packet[srcLoc + 3]);
      length := r.bytesRead + 4;
      pointerLocations := pointerLocations[qname := HEADER];
      assert packet[..HEADER + length][HEADER..HEADER + |q| + 2] == packet[..][HEADER..HEADER + |q| + 2];
    }

    /** The name of a record. */
    method EncodeOwner(r: Row, packet: array<byte>, ptr: nat, bufLen: int)
      returns (e: Event, n: nat, ghost w: seq<byte>)
      requires GoodRow(r)
      modifies packet
      ensures e == OwnerEvent(r, pointerLocations, ptr, bufLen, packet.Length)
      ensures e == Done ==> n == |w| == OwnerSize(r, pointerLocations) && IsOwner(r, pointerLocations, w)
      ensures e == Done ==> ptr + |w| <= packet.Length && packet[..] == Put(old(packet[..]), ptr, w)
    {
      w, n := NameField(r.name, pointerLocations), 2;
      if r.name in pointerLocations {
        var loc := 0xC000 + pointerLocations[r.name] % 0x4000;
        e := CopyEvent(ptr, 2, bufLen, packet.Length);
        if e == Done {
          PutBytes(packet, ptr, [loc / 256, loc % 256]);
        }
      } else {
        GoodIsShort(r.name);
        WireOfName(r.name);
        e, n := EncodeName(r.name, packet, ptr, bufLen);
      }
    }

    /** The data of a record. */
    static method EncodeData(r: Row, packet: array<byte>, ptr: nat, bufLen: int)
      returns (e: Event, n: nat, ghost w: seq<byte>)
      requires GoodRow(r)
      modifies packet
      ensures e == DataEvent(r, ptr, bufLen, packet.Length)
      ensures e == Done ==> n == |w| == DataSize(r) && IsData(r, w)
      ensures e == Done ==> ptr + |w| <= packet.Length && packet[..] == Put(old(packet[..]), ptr, w)
    {
      w, n := RData(r), 4;
      if r.rtype == TYPE_A {
        var addr := ParseQuad(r.value);
        e := CopyEvent(ptr, 4, bufLen, packet.Length);
        if e == Done {
          PutBytes(packet, ptr, addr[..]);
        }
      } else {
        GoodIsShort(r.value);
        WireOfName(r.value);
        e, n := EncodeName(r.value, packet, ptr, bufLen);
      }
    }

    /** The name of a record, and its data behind a gap. */
    method EncodeEnds(r: Row, packet: array<byte>, ptr: nat, bufLen: int)
      returns (e: Event, n: nat, rdlength: nat, ghost name: seq<byte>, ghost data: seq<byte>)
      requires GoodRow(r)
      modifies packet
      ensures e == EndsEvent(r, pointerLocations, ptr, bufLen, packet.Length)
      ensures e == Done ==> n == |name| == OwnerSize(r, pointerLocations) && IsOwner(r, pointerLocations, name)
      ensures e == Done ==> rdlength == |data| == DataSize(r) && IsData(r, data)
      ensures e == Done ==> ptr + n + 10 + rdlength <= packet.Length
      ensures e == Done ==> packet[..] == Put(Put(old(packet[..]), ptr, name), ptr + n + 10, data)
    {
      rdlength, data := 0, [];
      e, n, name := EncodeOwner(r, packet, ptr, bufLen);
      if e == Done {
        e, rdlength, data := EncodeData(r, packet, ptr + n + 10, bufLen - n - 10);
      }
    }

    /** `DNSResourceRecord::encode`: the name, the data behind a gap, and the fixed part in the gap. */
    method EncodeRecord(r: Row, packet: array<byte>, ptr: nat, bufLen: int) returns (e: Event, readBytes: nat)
      requires GoodRow(r)
      modifies packet
      ensures e == RecordEvent(r, pointerLocations, ptr, bufLen, packet.Length)
      ensures e == Done ==> readBytes == RecordSize(r, pointerLocations) && ptr + readBytes <= packet.Length
      ensures e == Done ==> packet[..ptr] == old(packet[..ptr])
      ensures e == Done ==> Adds(old(packet[..ptr]), pointerLocations, r, packet[..ptr + readBytes])
    {
      ghost var s, name, data := packet[..], [], [];
      var n, rdlength;
      readBytes := 0;
      e, n, rdlength, name, data := EncodeEnds(r, packet, ptr, bufLen);
      if e != Done {
        return;
      }
      ghost var s2 := packet[..];
      var fixed := Fixed(r, rdlength);
      e := CopyEvent(ptr + n, 10, bufLen - n - rdlength, packet.Length);
      if e == Done {
        PutBytes(packet, ptr + n, fixed);
        readBytes := n + rdlength + 10;
        PutRecord(s, ptr, name, n, fixed, data, Put(s, ptr, name), s2, packet[..]);
        PartsAdd(s[..ptr], pointerLocations, r, name, fixed, data, packet[..ptr + readBytes]);
      }
    }

    /** One row of the result: its record, and the place of the name it may bring. */
    method WriteRow(r: Row, packet: array<byte>, ptr: nat, remLen: int) returns (e: Event, readBytes: nat)
      requires GoodRow(r) && packet.Length <= 0x4000
      modifies this, packet
      ensures e == RecordEvent(r, old(pointerLocations), ptr, remLen, packet.Length)
      ensures e == Done ==> ptr + readBytes <= packet.Length && packet[..ptr] == old(packet[..ptr])
      ensures e == Done ==> Layout(ptr + readBytes, pointerLocations) == After(Layout(ptr, old(pointerLocations)), r)
      ensures e == Done ==> Adds(old(packet[..ptr]), old(pointerLocations), r, packet[..ptr + readBytes])
    {
      e, readBytes := EncodeRecord(r, packet, ptr, remLen);
      if e == Done && r.rtype == TYPE_CNAME && r.value !in pointerLocations {
        pointerLocations := pointerLocations[r.value := (ptr + readBytes - |r.value| - 2) % 65536];
      }
    }

    /** One row more is answered, unless that cannot be done. */
    method AnswerRow(rows: seq<Row>, i: nat, packet: array<byte>, ptr: nat, remLen: int, ghost message: seq<byte>,
                     ghost locs: Locations, ghost stop: nat, ghost total: nat)
      returns (e: Event, readBytes: nat)
      requires GoodRows(rows) && i < stop <= |rows| && ptr <= packet.Length <= 0x4000
      requires remLen == LIMIT - (ptr - |message|)
      requires Stands(message, locs, rows, i, packet[..ptr], Layout(ptr, pointerLocations))
      requires StopsAt(Layout(|message|, locs), rows, stop, total)
      modifies this, packet
      ensures e != Done || i + 1 == stop ==> Ended(Layout(|message|, locs), rows, stop, total, packet.Length, e)
      ensures e == Done ==> 0 < readBytes && ptr + readBytes <= total && ptr + readBytes <= packet.Length
      ensures e == Done ==> if i + 1 == stop then ptr + readBytes == total else ptr + readBytes - |message| < LIMIT
      ensures e == Done ==> Stands(message, locs, rows, i, packet[..ptr], old(Layout(ptr, pointerLocations)))
      ensures e == Done ==>
        Stands(message, locs, rows, i + 1, packet[..ptr + readBytes], Layout(ptr + readBytes, pointerLocations))
    {
      ghost var s, l := packet[..ptr], Layout(ptr, pointerLocations);
      NextFits(message, locs, rows, i, s, l, stop, total);
      e, readBytes := WriteRow(rows[i], packet, ptr, remLen);
      NextEnds(message, locs, rows, i, s, l, stop, total, packet.Length, e);
      if e == Done {
        StandsNext(message, locs, rows, i, s, l, packet[..ptr + readBytes]);
      }
    }

    /**
      The answering loop of `resolveA`. It writes one record after the other until the records take the
      limit or more; it counts them in 16 bits, or one less when it stops for that.
     */
    method WriteAnswers(rows: seq<Row>, packet: array<byte>, start: nat, ghost stop: nat, ghost total: nat)
      returns (e: Event, length: nat, answers: nat, truncated: bool, ghost n: nat, ghost l: Layout)
      requires GoodRows(rows) && start <= total && start <= packet.Length <= 0x4000
      requires StopsAt(Layout(start, pointerLocations), rows, stop, total)
      modifies this, packet
      ensures Ended(Layout(start, old(pointerLocations)), rows, stop, total, packet.Length, e)
      ensures e == Done ==> (truncated <==> total - start >= LIMIT) && start + length <= packet.Length
      ensures e == Done ==> Stands(old(packet[..start]), old(pointerLocations), rows, n, packet[..start + length], l)
      ensures e == Done && !truncated ==>
        n == answers == |rows| && start + length == total && l == Layout(total, pointerLocations)
      ensures e == Done && truncated ==> n == stop - 1 && answers == OneLess(n)
    {
      var i, ptr: nat, remLen: int := 0, start, LIMIT;
      length, n, l := 0, 0, Layout(start, pointerLocations);
      e, answers, truncated := Done, 0, false;
      ghost var message, locs := packet[..start], pointerLocations;
      StandsStart(message, locs, rows);
      if stop == 0 {
        EndedEmpty(Layout(start, locs), rows, total, packet.Length);
      }
      while i < |rows|
        invariant 0 <= i <= stop && answers == i && !truncated && (i == stop ==> ptr == total) && ptr <= packet.Length
        invariant start + i <= ptr <= total && 0 < remLen == LIMIT - (ptr - start)
        invariant Stands(message, locs, rows, i, packet[..ptr], Layout(ptr, pointerLocations))
        invariant e == Done && (i == stop ==> Ended(Layout(start, locs), rows, stop, total, packet.Length, Done))
      {
        l := Layout(ptr, pointerLocations);
        var readBytes;
        e, readBytes := AnswerRow(rows, i, packet, ptr, remLen, message, locs, stop, total);
        if e != Done {
          return;
        }
        remLen := remLen - readBytes;
        if remLen <= 0 {
          return e, ptr - start, OneLess(answers), true, i, l;
        }
        ptr := ptr + readBytes;
        answers := OneMore(answers);
        i := i + 1;
      }
      length, n, l := ptr - start, i, Layout(ptr, pointerLocations);
    }

    /** The loop, with what can stop it said of the rows. */
    method WriteReply(rows: seq<Row>, packet: array<byte>, start: nat)
      returns (e: Event, length: nat, answers: nat, truncated: bool, ghost n: nat, ghost l: Layout)
      requires GoodRows(rows) && start <= packet.Length <= 0x4000
      modifies this, packet
      ensures IsOutcome(Layout(start, old(pointerLocations)), rows, packet.Length, e)
      ensures e == Done ==>
        (truncated <==> Laid(Layout(start, old(pointerLocations)), rows, |rows|).end - start >= LIMIT)
      ensures e == Done ==> start + length <= packet.Length
      ensures e == Done && !truncated ==> n == answers == |rows| && l == Layout(start + length, pointerLocations)
      ensures e == Done && !truncated ==>
        start + length == Laid(Layout(start, old(pointerLocations)), rows, |rows|).end
      ensures e == Done && truncated ==>
        n + 1 == Stop(Layout(start, old(pointerLocations)), rows, 0) && answers == OneLess(n)
      ensures e == Done ==> Stands(old(packet[..start]), old(pointerLocations), rows, n, packet[..start + length], l)
    {
      ghost var l0 := Layout(start, pointerLocations);
      ghost var stop, total := Plan(l0, rows);
      e, length, answers, truncated, n, l := WriteAnswers(rows, packet, start, stop, total);
      EndedIs(l0, rows, packet.Length, e);
    }

    /**
      `resolveA`. It comes to an end exactly when the last record that is written stays within the packet and is not
      refused. The answers, read as section 4.1.4 of RFC 1035 says, are then the rows, in order, and are counted. A
      truncated response holds the answers before the one that reached the limit, and the count is one short of them.
     */
    method ResolveA(rows: seq<Row>, packet: array<byte>, start: nat)
      returns (e: Event, length: nat, answers: nat, truncated: bool, ghost n: nat)
      requires GoodRows(rows) && start <= packet.Length <= 0x4000 && Located(packet[..start], pointerLocations)
      modifies this, packet
      ensures IsOutcome(Layout(start, old(pointerLocations)), rows, packet.Length, e)
      ensures e == Done ==>
        (truncated <==> Laid(Layout(start, old(pointerLocations)), rows, |rows|).end - start >= LIMIT)
      ensures e == Done ==> start + length <= packet.Length && packet[..start] == old(packet[..start])
      ensures e == Done && !truncated ==> n == answers == |rows|
      ensures e == Done ==>
        n <= |rows| && start + length == Laid(Layout(start, old(pointerLocations)), rows, n).end
      ensures e == Done && truncated ==>
        n + 1 == Stop(Layout(start, old(pointerLocations)), rows, 0) && answers == OneLess(n)
      ensures e == Done ==> Answered(packet[..start + length], start, rows, n, start + length)
      ensures e == Done && !truncated ==> Located(packet[..start + length], pointerLocations)
    {
      ghost var message, locs, l := packet[..start], pointerLocations, Layout(start, pointerLocations);
      e, length, answers, truncated, n, l := WriteReply(rows, packet, start);
      if e == Done {
        StandsDenotes(message, locs, rows, n, packet[..start + length], l, start, start + length);
        assert packet[..start] == packet[..start + length][..start];
      }
    }

    /**
      What the server sends: the first 512 bytes at most. It holds the rows that were written, all of them unless
      it is marked as truncated, exactly when question and records end within them; the limit of `resolveA` does
      not count the question.
     */
    method Respond(rows: seq<Row>, packet: array<byte>, start: nat)
      returns (e: Event, sent: nat, tc: bool, ghost n: nat)
      requires GoodRows(rows) && start <= packet.Length <= 0x4000 && Located(packet[..start], pointerLocations)
      modifies this, packet
      ensures IsOutcome(Layout(start, old(pointerLocations)), rows, packet.Length, e)
      ensures e == Done ==> (tc <==> Laid(Layout(start, old(pointerLocations)), rows, |rows|).end - start >= LIMIT)
      ensures e == Done ==> packet[..start] == old(packet[..start]) && sent <= packet.Length
      ensures e == Done ==> n <= |rows|
      ensures e == Done ==> if tc then n + 1 == Stop(Layout(start, old(pointerLocations)), rows, 0) else n == |rows|
      ensures e == Done ==> sent == Min(Laid(Layout(start, old(pointerLocations)), rows, n).end, DATAGRAM)
      ensures e == Done ==>
        (Carries(packet[..sent], start, AnswersOf(rows)[..n])
         <==> Laid(Layout(start, old(pointerLocations)), rows, n).end <= DATAGRAM)
      ensures e == Done && !tc ==> AnswersOf(rows)[..n] == AnswersOf(rows)
    {
      var length, answers;
      e, length, answers, tc, n := ResolveA(rows, packet, start);
      sent := 0;
      if e == Done {
        sent := Min(start + length, DATAGRAM);
        SentCarries(packet[..start + length], start, rows, n, start + length, packet[..sent], sent);
      }
    }
  }
}
