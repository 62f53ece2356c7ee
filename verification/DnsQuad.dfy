/** Addresses in A records (DNS/DNSRDataA.cpp): parsing and printing of dotted quads. */
module DnsQuad {
  import opened Bytes
  import opened DnsNames
  import opened DnsEncode

  const ZERO: byte := 48

  predicate IsDigit(c: byte) { 48 <= c <= 57 }

  predicate AllDigits(s: seq<byte>) {
    forall i :: 0 <= i < |s| ==> IsDigit(s[i])
  }

  /** `atoi` on digits. */
  function Number(s: seq<byte>): (n: nat)
    requires AllDigits(s)
  {
    if s == [] then 0 else Number(s[..|s| - 1]) * 10 + (s[|s| - 1] as int - 48)
  }

  /** `_itoa_s` in base 10. */
  function Decimal(n: byte): (s: seq<byte>)
    ensures 1 <= |s| <= 3
  {
    if n > 99 then [48 + n / 100, 48 + n / 10 % 10, 48 + n % 10]
    else if n > 9 then [48 + n / 10, 48 + n % 10]
    else [48 + n]
  }

  /** Digits as they are printed: no zero in front of another digit. */
  predicate Canonical(s: seq<byte>) {
    AllDigits(s) && 1 <= |s| <= 3 && (|s| > 1 ==> s[0] != ZERO) && Number(s) < 256
  }

  lemma {:induction false} NumberOne(a: byte)
    requires IsDigit(a)
    ensures Number([a]) == a as int - 48
  {
    assert [a][..0] == [];
  }

  lemma {:induction false} NumberTwo(a: byte, b: byte)
    requires IsDigit(a) && IsDigit(b)
    ensures Number([a, b]) == (a as int - 48) * 10 + (b as int - 48)
  {
    assert [a, b][..1] == [a];
    NumberOne(a);
  }

  lemma {:induction false} NumberThree(a: byte, b: byte, c: byte)
    requires IsDigit(a) && IsDigit(b) && IsDigit(c)
    ensures Number([a, b, c]) == (a as int - 48) * 100 + (b as int - 48) * 10 + (c as int - 48)
  {
    assert [a, b, c][..2] == [a, b];
    NumberTwo(a, b);
  }

  /** What is printed is read back. */
  lemma {:induction false} DecimalNumber(n: byte)
    ensures Canonical(Decimal(n)) && Number(Decimal(n)) == n
  {
    if n > 99 {
      NumberThree(48 + n / 100, 48 + n / 10 % 10, 48 + n % 10);
    } else if n > 9 {
      NumberTwo(48 + n / 10, 48 + n % 10);
    } else {
      NumberOne(48 + n);
    }
  }

  lemma {:induction false} PrintedOne(s: seq<byte>)
    requires Canonical(s) && |s| == 1
    ensures Decimal(Number(s)) == s
  {
    assert s == [s[0]];
    NumberOne(s[0]);
  }

  lemma {:induction false} PrintedTwo(s: seq<byte>)
    requires Canonical(s) && |s| == 2
    ensures Decimal(Number(s)) == s
  {
    assert s == [s[0], s[1]];
    NumberTwo(s[0], s[1]);
    var a: int, b: int := s[0] as int - 48, s[1] as int - 48;
    DivTen(10 * a + b, a, b);
  }

  lemma {:induction false} PrintedThree(s: seq<byte>)
    requires Canonical(s) && |s| == 3
    ensures Decimal(Number(s)) == s
  {
    assert s == [s[0], s[1], s[2]];
    NumberThree(s[0], s[1], s[2]);
    var a: int, b: int, c: int := s[0] as int - 48, s[1] as int - 48, s[2] as int - 48;
    DivTen(100 * a + 10 * b + c, 10 * a + b, c);
    DivTen(10 * a + b, a, b);
  }

  lemma {:induction false} DivTen(n: int, q: int, r: int)
    requires 0 <= r < 10 && n == 10 * q + r
    ensures n / 10 == q && n % 10 == r && n / 100 == q / 10
  {
  }

  /** What is read is printed back if it was as printed. */
  lemma {:induction false} NumberDecimal(s: seq<byte>)
    requires Canonical(s)
    ensures Decimal(Number(s)) == s
  {
    if |s| == 1 {
      PrintedOne(s);
    } else if |s| == 2 {
      PrintedTwo(s);
    } else {
      PrintedThree(s);
    }
  }

  // ----- Texts

  predicate QuadPart(l: Label) { |l| <= 3 && AllDigits(l) }

  /**
    The texts the constructor can take: up to 15 characters, four parts of up to three digits; what follows
    them is not looked at.
   */
  predicate QuadText(s: seq<byte>) {
    var ls := Labels(s);
    |s| <= 15 && |ls| >= 4 && forall i :: 0 <= i < 4 ==> QuadPart(ls[i])
  }

  /** The address: each part as an unsigned char. */
  function Address(s: seq<byte>): (a: seq<byte>)
    requires QuadText(s)
    ensures |a| == 4
  {
    var ls := Labels(s);
    seq(4, i requires 0 <= i < 4 => Number(ls[i]) % 256)
  }

  function Parts(a: seq<byte>): (ls: seq<Label>)
    ensures |ls| == |a|
  {
    seq(|a|, i requires 0 <= i < |a| => Decimal(a[i]))
  }

  function Text(a: seq<byte>): seq<byte> {
    Dotted(Parts(a))
  }

  /** Cutting a dotted name gives its parts back, if no part has a dot. */
  lemma {:induction false} LabelsDotted(ls: seq<Label>)
    requires ls != [] && forall i :: 0 <= i < |ls| ==> DOT !in ls[i]
    ensures Labels(Dotted(ls)) == ls
  {
    var name := Dotted(ls);
    if |ls| == 1 {
      DotAt(ls[0], [], name);
      assert FirstDot(name) == |name|;
    } else {
      var rest := Dotted(ls[1..]);
      DotAt(ls[0], [DOT] + rest, name);
      assert name[|ls[0]|] == DOT && name[|ls[0]| + 1..] == rest && name[..|ls[0]|] == ls[0];
      LabelsDotted(ls[1..]);
    }
  }

  lemma {:induction false} DotAt(l: Label, tail: seq<byte>, name: seq<byte>)
    requires DOT !in l && name == l + tail && (tail == [] || tail[0] == DOT)
    ensures FirstDot(name) == |l|
  {
    FirstDotIs(name);
    assert forall i :: 0 <= i < |l| ==> name[i] == l[i];
    assert tail != [] ==> name[|l|] == DOT;
  }

  predicate Prints(l: Label, n: byte) {
    Canonical(l) && DOT !in l && Number(l) == n
  }

  lemma {:induction false} PartPrints(a: seq<byte>, i: nat)
    requires i < |a|
    ensures Prints(Parts(a)[i], a[i])
  {
    DecimalNumber(a[i]);
  }

  lemma {:induction false} LabelsOfText(a: seq<byte>)
    requires a != []
    ensures Labels(Text(a)) == Parts(a)
  {
    forall i | 0 <= i < |a| ensures DOT !in Parts(a)[i] {
      PartPrints(a, i);
    }
    LabelsDotted(Parts(a));
  }

  lemma {:induction false} TrailShort(ls: seq<Label>)
    requires forall i :: 0 <= i < |ls| ==> |ls[i]| <= 3
    ensures |Trail(ls)| <= 4 * |ls|
  {
    if ls != [] {
      TrailShort(ls[1..]);
    }
  }

  lemma {:induction false} TextShort(a: seq<byte>)
    requires |a| == 4
    ensures |Text(a)| <= 15
  {
    forall i | 0 <= i < |a| ensures |Parts(a)[i]| <= 3 {
      PartReads(a, i);
    }
    TrailShort(Parts(a));
    TrailDotted(Parts(a));
  }

  lemma {:induction false} DottedNoNul(ls: seq<Label>)
    requires forall i :: 0 <= i < |ls| ==> 0 !in ls[i]
    ensures 0 !in Dotted(ls)
  {
    if |ls| > 1 {
      DottedNoNul(ls[1..]);
    }
  }

  lemma {:induction false} TextNoNul(a: seq<byte>)
    ensures 0 !in Text(a)
  {
    DottedNoNul(Parts(a));
  }

  /** Every address is read back from its text. */
  lemma {:induction false} AddressOfText(a: seq<byte>)
    requires |a| == 4
    ensures QuadText(Text(a)) && Address(Text(a)) == a
  {
    LabelsOfText(a);
    TextShort(a);
    forall i | 0 <= i < 4 ensures QuadPart(Parts(a)[i]) && Number(Parts(a)[i]) == a[i] {
      PartReads(a, i);
    }
  }

  lemma {:induction false} PartReads(a: seq<byte>, i: nat)
    requires i < |a|
    ensures QuadPart(Parts(a)[i]) && Number(Parts(a)[i]) == a[i]
  {
    PartPrints(a, i);
  }

  predicate CanonicalParts(ls: seq<Label>) {
    |ls| == 4 && forall i :: 0 <= i < 4 ==> Canonical(ls[i])
  }

  lemma {:induction false} PartOfAddress(l: Label, n: byte)
    requires Canonical(l) && n == Number(l) % 256
    ensures Decimal(n) == l
  {
    NumberDecimal(l);
  }

  lemma {:induction false} PartsOfAddress(ls: seq<Label>, a: seq<byte>)
    requires CanonicalParts(ls) && |a| == 4 && forall i :: 0 <= i < 4 ==> a[i] == Number(ls[i]) % 256
    ensures Parts(a) == ls
  {
    forall i | 0 <= i < 4 ensures Parts(a)[i] == ls[i] {
      PartOfAddress(ls[i], a[i]);
    }
  }

  lemma {:induction false} PartsCanonical(a: seq<byte>)
    requires |a| == 4
    ensures CanonicalParts(Parts(a))
  {
    forall i | 0 <= i < 4 ensures Canonical(Parts(a)[i]) {
      PartPrints(a, i);
    }
  }

  /** A text is printed back from its address exactly when it has four parts, each written as it is printed. */
  lemma {:induction false} TextOfAddress(s: seq<byte>)
    requires QuadText(s)
    ensures Text(Address(s)) == s <==> CanonicalParts(Labels(s))
  {
    var a := Address(s);
    if CanonicalParts(Labels(s)) {
      PartsOfAddress(Labels(s), a);
      DottedLabels(s);
    }
    if Text(a) == s {
      LabelsOfText(a);
      PartsCanonical(a);
    }
  }

  /** `01.2.3.4` is not printed back. */
  lemma {:induction false} ZeroDropped()
    ensures var s := Dotted([[48, 49], [50], [51], [52]]); QuadText(s) && Text(Address(s)) != s
  {
    var ls: seq<Label> := [[48, 49], [50], [51], [52]];
    TrailShort(ls);
    TrailDotted(ls);
    LabelsDotted(ls);
    assert !Canonical(ls[0]);
    TextOfAddress(Dotted(ls));
  }

  // ----- The code

  lemma {:induction false} LabelsRest(s: seq<byte>, d: nat)
    requires d == FirstDot(s)
    ensures Labels(s)[0] == s[..d]
    ensures (d < |s| ==> Labels(s)[1..] == Labels(s[d + 1..]))
    ensures (d == |s| ==> |Labels(s)| == 1)
  {
  }

  /** The constructor from a text. */
  method ParseQuad(s: seq<byte>) returns (addr: array<byte>)
    requires QuadText(s)
    ensures fresh(addr) && addr[..] == Address(s)
  {
    addr := new byte[4];
    var ptr := s;
    var i := 0;
    ghost var ls := Labels(s);
    while i < 4
      invariant 0 <= i <= 4 && (i < 4 ==> Labels(ptr) == ls[i..])
      invariant forall k :: 0 <= k < i ==> addr[k] == Number(ls[k]) % 256
    {
      var numChars := FindDot(ptr);
      LabelsRest(ptr, numChars);
      assert ptr[..numChars] == ls[i];
      addr[i] := Number(ptr[..numChars]) % 256;
      if i < 3 {
        assert ls[i..][1..] == ls[i + 1..];
        ptr := ptr[numChars + 1..];
      }
      i := i + 1;
    }
  }

  /** What is printed after i parts. */
  function Printed(a: seq<byte>, i: nat): (s: seq<byte>)
    requires i <= |a| == 4
  {
    if i < 4 then Trail(Parts(a)[..i]) else Text(a)
  }

  lemma {:induction false} PrintedNext(a: seq<byte>, i: nat)
    requires i < |a| == 4
    ensures Printed(a, i + 1) == Printed(a, i) + (Decimal(a[i]) + if i < 3 then [DOT] else [])
  {
    var ls := Parts(a);
    assert ls[..i + 1] == ls[..i] + [ls[i]];
    TrailConcat(ls[..i], [ls[i]]);
    assert Trail([ls[i]]) == ls[i] + [DOT];
    if i == 3 {
      assert ls[..4] == ls;
      TrailDotted(ls);
      Assoc(Trail(ls[..3]), ls[3], [DOT]);
      assert (Trail(ls[..3]) + ls[3]) + [DOT] == Dotted(ls) + [DOT];
      SameBut(Trail(ls[..3]) + ls[3], Dotted(ls));
    }
  }

  lemma {:induction false} SameBut(s: seq<byte>, t: seq<byte>)
    requires s + [DOT] == t + [DOT]
    ensures s == t
  {
    assert s == (s + [DOT])[..|s|] && t == (t + [DOT])[..|t|];
  }

  /** Writes a string and its NUL if there is room for both; the library reports an error otherwise. */
  method WriteString(value: array<byte>, at: nat, room: int, s: seq<byte>) returns (ok: bool)
    requires at + |s| + 1 <= value.Length || room < |s| + 1
    modifies value
    ensures ok <==> |s| + 1 <= room
    ensures ok ==> value[..at] == old(value[..at]) && value[..at + |s|] == old(value[..at]) + s
  {
    ok := |s| + 1 <= room;
    if ok {
      CopyInto(value, at, s + [0]);
    }
  }

  /** Prints one part; the dot is appended within the room that the digits leave. */
  method PrintPart(value: array<byte>, ptr: nat, remLen: int, digits: seq<byte>, dot: bool) returns (ok: bool)
    requires value.Length == 16 && ptr == 16 - remLen && remLen <= 16
    modifies value
    ensures ok <==> if dot then 2 * |digits| + 2 <= remLen else |digits| + 1 <= remLen
    ensures ok ==>
      value[..ptr + |digits| + if dot then 1 else 0] == old(value[..ptr]) + (digits + if dot then [DOT] else [])
  {
    ok := WriteString(value, ptr, remLen, digits);
    assert digits + [] == digits;
    if dot && ok {
      ok := WriteString(value, ptr, remLen - |digits|, digits + [DOT]);
    }
  }

  /** `decode`: prints an address into 16 bytes. The room left is enough for every part, dot and NUL. */
  method PrintQuad(addr: seq<byte>) returns (value: array<byte>, ok: bool)
    requires |addr| == 4
    ensures ok && value.Length == 16 && |Text(addr)| < 16 && value[..|Text(addr)| + 1] == Text(addr) + [0]
  {
    value, ok := new byte[16], true;
    var i, ptr, remLen := 0, 0, 16;
    while i < 4
      invariant 0 <= i <= 4 && ok && 0 <= ptr == 16 - remLen == |Printed(addr, i)| && ptr <= if i < 4 then 4 * i else 15
      invariant value[..ptr] == Printed(addr, i)
    {
      var digits := Decimal(addr[i]);
      PrintedNext(addr, i);
      ok := PrintPart(value, ptr, remLen, digits, i < 3);
      remLen := remLen - |digits| - if i < 3 then 1 else 0;
      ptr := 16 - remLen;
      i := i + 1;
    }
    value[ptr] := 0;
  }
}
