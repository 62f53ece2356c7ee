/** Prepared statements: the rewriting of a query with `printf`-like parameters (apr-util/dbd/apr_dbd.c). */
module DbdPrepare {

  datatype Type =
    | TINY | UTINY | SHORT | USHORT | INT | UINT | LONG | ULONG | LONGLONG | ULONGLONG | FLOAT | DOUBLE
    | STRING | TEXT | TIME | DATE | DATETIME | TIMESTAMP | ZTIMESTAMP | BLOB | CLOB | NULL

  predicate IsAlpha(c: char) { 'a' <= c <= 'z' || 'A' <= c <= 'Z' }

  // ----- Parameters

  /** The words that may follow a percent sign, and the types they stand for. */
  const WORDS: seq<(string, Type)> := [
    ("hhd", TINY), ("hhu", UTINY), ("hd", SHORT), ("hu", USHORT), ("d", INT), ("u", UINT), ("ld", LONG), ("lu", ULONG),
    ("lld", LONGLONG), ("llu", ULONGLONG), ("f", FLOAT), ("lf", DOUBLE), ("pDt", TEXT), ("pDi", TIME), ("pDd", DATE),
    ("pDa", DATETIME), ("pDs", TIMESTAMP), ("pDz", ZTIMESTAMP), ("pDb", BLOB), ("pDc", CLOB), ("pDn", NULL)]

  function At(q: string, i: nat): char {
    if i < |q| then q[i] else '\0'
  }

  /**
    The type of a parameter and the letters it takes, by the letters after the percent sign: nested tests as
    in the code.
   */
  function Kind(q: string): (k: (Type, nat))
    ensures 1 <= k.1 <= 3 && (q != "" ==> k.1 <= |q|)
  {
    match At(q, 0)
    case 'd' => (INT, 1)
    case 'u' => (UINT, 1)
    case 'f' => (FLOAT, 1)
    case 'h' =>
      (match At(q, 1)
       case 'h' => (match At(q, 2) case 'd' => (TINY, 3) case 'u' => (UTINY, 3) case _ => (STRING, 1))
       case 'd' => (SHORT, 2)
       case 'u' => (USHORT, 2)
       case _ => (STRING, 1))
    case 'l' =>
      (match At(q, 1)
       case 'l' => (match At(q, 2) case 'd' => (LONGLONG, 3) case 'u' => (ULONGLONG, 3) case _ => (STRING, 1))
       case 'd' => (LONG, 2)
       case 'u' => (ULONG, 2)
       case 'f' => (DOUBLE, 2)
       case _ => (STRING, 1))
    case 'p' =>
      if At(q, 1) != 'D' then (STRING, 1)
      else
        (match At(q, 2)
         case 't' => (TEXT, 3)
         case 'i' => (TIME, 3)
         case 'd' => (DATE, 3)
         case 'a' => (DATETIME, 3)
         case 's' => (TIMESTAMP, 3)
         case 'z' => (ZTIMESTAMP, 3)
         case 'b' => (BLOB, 3)
         case 'c' => (CLOB, 3)
         case 'n' => (NULL, 3)
         case _ => (STRING, 1))
    case _ => (STRING, 1)
  }

  /** The tests find the word that stands there; where none stands the parameter is a string of one letter. */
  lemma {:induction false} KindIsWord(q: string, k: nat)
    requires k < |WORDS| && WORDS[k].0 <= q
    ensures Kind(q) == (WORDS[k].1, |WORDS[k].0|)
  {
    var w := WORDS[k].0;
    assert forall i :: 0 <= i < |w| ==> At(q, i) == w[i];
  }

  function IndexOf(t: Type): (k: nat)
    requires t != STRING
    ensures k < |WORDS| && WORDS[k].1 == t
  {
    match t
    case TINY => 0 case UTINY => 1 case SHORT => 2 case USHORT => 3 case INT => 4 case UINT => 5 case LONG => 6
    case ULONG => 7 case LONGLONG => 8 case ULONGLONG => 9 case FLOAT => 10 case DOUBLE => 11 case TEXT => 12
    case TIME => 13 case DATE => 14 case DATETIME => 15 case TIMESTAMP => 16 case ZTIMESTAMP => 17 case BLOB => 18
    case CLOB => 19 case NULL => 20
  }

  lemma {:induction false} KindIsString(q: string)
    ensures Kind(q) == (STRING, 1) <==> forall k :: 0 <= k < |WORDS| ==> !(WORDS[k].0 <= q)
  {
    if Kind(q).0 != STRING {
      WordFound(q);
    }
    if k :| 0 <= k < |WORDS| && WORDS[k].0 <= q {
      KindIsWord(q, k);
    }
  }

  lemma {:induction false} WordFound(q: string)
    requires Kind(q).0 != STRING
    ensures WORDS[IndexOf(Kind(q).0)].0 <= q
  {
    var n := Kind(q).1;
    assert |q| >= n;
    if n == 1 {
      assert q[..1] == [q[0]];
    } else if n == 2 {
      assert q[..2] == [q[0], q[1]];
    } else {
      assert q[..3] == [q[0], q[1], q[2]];
    }
  }

  // ----- Queries

  datatype Token = Param(kind: Type) | Text(c: char)

  /** The first token of a query and the characters it takes. */
  function Head(q: string): (h: (Token, nat))
    requires q != ""
    ensures 1 <= h.1 <= |q|
  {
    if q[0] == '%' && |q| > 1 && IsAlpha(q[1]) then (Param(Kind(q[1..]).0), 1 + Kind(q[1..]).1)
    else if q[0] == '%' && |q| > 1 && q[1] == '%' then (Text('%'), 2)
    else (Text(q[0]), 1)
  }

  function Parse(q: string): seq<Token>
    decreases |q|
  {
    if q == "" then [] else [Head(q).0] + Parse(q[Head(q).1..])
  }

  function Kinds(ts: seq<Token>): seq<Type> {
    if ts == [] then [] else (if ts[0].Param? then [ts[0].kind] else []) + Kinds(ts[1..])
  }

  /** A parameter in the notation of a driver: fixed, or with its number in it. */
  datatype Format = Fixed(text: string) | Numbered(before: string, after: string)

  /** The length of the format; a number is written with two characters in it. */
  function FormatLength(f: Format): nat {
    if f.Fixed? then |f.text| else |f.before| + 2 + |f.after|
  }

  function Decimal(n: nat): (s: string)
    ensures |s| >= 1
  {
    if n < 10 then [('0' as int + n) as char] else Decimal(n / 10) + [('0' as int + n % 10) as char]
  }

  predicate IsDigit(c: char) { '0' <= c <= '9' }

  /** The number that digits stand for. */
  function Value(s: string): int
    requires forall i :: 0 <= i < |s| ==> IsDigit(s[i])
  {
    if s == "" then 0 else 10 * Value(s[..|s| - 1]) + (s[|s| - 1] as int - '0' as int)
  }

  /** A number is written in digits that have its value, without leading zeros. */
  lemma {:induction false} DecimalValue(n: nat)
    ensures forall i :: 0 <= i < |Decimal(n)| ==> IsDigit(Decimal(n)[i])
    ensures Value(Decimal(n)) == n && (n > 0 ==> Decimal(n)[0] != '0') && (n == 0 ==> Decimal(n) == "0")
  {
    var s, digit := Decimal(n), ('0' as int + n % 10) as char;
    if n < 10 {
      assert s[..0] == "" && s == [digit];
    } else {
      DecimalValue(n / 10);
      assert s[..|s| - 1] == Decimal(n / 10) && s[|s| - 1] == digit;
    }
  }

  function Reference(f: Format, i: nat): string {
    if f.Fixed? then f.text else f.before + Decimal(i) + f.after
  }

  /** The query as the driver sees it, when i parameters have gone before. */
  function Render(ts: seq<Token>, f: Format, i: nat): string {
    if ts == [] then ""
    else if ts[0].Param? then Reference(f, i + 1) + Render(ts[1..], f, i + 1)
    else [ts[0].c] + Render(ts[1..], f, i)
  }

  /** A word after a percent sign is a parameter of its type, whatever comes behind it. */
  lemma {:induction false} WordParsed(k: nat, rest: string)
    requires k < |WORDS|
    ensures Parse("%" + WORDS[k].0 + rest) == [Param(WORDS[k].1)] + Parse(rest)
  {
    var w := WORDS[k].0;
    var q := "%" + w + rest;
    assert q[1..] == w + rest;
    WordAlpha(k);
    KindIsWord(q[1..], k);
    assert q[1 + |w|..] == rest;
  }

  lemma {:induction false} WordAlpha(k: nat)
    requires k < |WORDS|
    ensures WORDS[k].0 != "" && IsAlpha(WORDS[k].0[0])
  {
  }

  /** A letter at which no word stands is a parameter that is a string. */
  lemma {:induction false} LetterParsed(c: char, rest: string)
    requires IsAlpha(c) && forall k :: 0 <= k < |WORDS| ==> !(WORDS[k].0 <= [c] + rest)
    ensures Parse("%" + [c] + rest) == [Param(STRING)] + Parse(rest)
  {
    var q := "%" + [c] + rest;
    assert q[1..] == [c] + rest;
    KindIsString(q[1..]);
    assert q[2..] == rest;
  }

  /** The parameter after those in a is given the next number. */
  lemma {:induction false} RenderNumbers(a: seq<Token>, k: Type, b: seq<Token>, f: Format, i: nat)
    ensures var n := i + |Kinds(a)| + 1;
      Render(a + [Param(k)] + b, f, i) == Render(a, f, i) + Reference(f, n) + Render(b, f, n)
    decreases |a|
  {
    var ts := a + [Param(k)] + b;
    if a == [] {
      assert ts[1..] == b;
    } else {
      var i' := if a[0].Param? then i + 1 else i;
      var head := if a[0].Param? then Reference(f, i + 1) else [a[0].c];
      assert ts[0] == a[0] && ts[1..] == a[1..] + [Param(k)] + b;
      RenderNumbers(a[1..], k, b, f, i');
      var n := i + |Kinds(a)| + 1;
      InFront(head, Render(a[1..], f, i'), Reference(f, n), Render(b, f, n));
    }
  }

  lemma {:induction false} InFront(head: string, a: string, b: string, c: string)
    ensures head + (a + b + c) == (head + a) + b + c
  {
  }

  function Power10(k: nat): nat { if k == 0 then 1 else 10 * Power10(k - 1) }

  lemma {:induction false} DecimalLength(n: nat, k: nat)
    requires k >= 1 && n < Power10(k)
    ensures |Decimal(n)| <= k
    decreases k
  {
    if n >= 10 {
      DecimalLength(n / 10, k - 1);
    }
  }

  /** What is reserved for a parameter is enough for its reference. */
  lemma {:induction false} ReferenceFits(f: Format, i: nat)
    requires i < 0x8000_0000
    ensures |Reference(f, i)| <= FormatLength(f) + 14
  {
    assert Power10(10) == 10000000000 by {
      assert Power10(5) == 100000;
    }
    DecimalLength(i, 10);
  }

  /** A text with every percent sign doubled. */
  function Escape(s: string): string {
    if s == "" then "" else (if s[0] == '%' then "%%" else [s[0]]) + Escape(s[1..])
  }

  /** An escaped text has no parameters, and the driver sees the text. */
  lemma {:induction false} EscapedText(s: string, f: Format, i: nat)
    ensures Kinds(Parse(Escape(s))) == [] && Render(Parse(Escape(s)), f, i) == s
  {
    if s != "" {
      var q, rest := Escape(s), Escape(s[1..]);
      var n := if s[0] == '%' then 2 else 1;
      assert q[n..] == rest;
      EscapedText(s[1..], f, i);
      assert Parse(q)[1..] == Parse(rest);
    }
  }

  // ----- The first pass

  lemma {:induction false} ParseHead(q: string)
    requires q != ""
    ensures Kinds(Parse(q)) == (if Head(q).0.Param? then [Head(q).0.kind] else []) + Kinds(Parse(q[Head(q).1..]))
  {
    assert Parse(q)[1..] == Parse(q[Head(q).1..]);
  }

  lemma {:induction false} KindLetters(q: string, i: nat)
    requires q != "" && IsAlpha(q[0]) && i < Kind(q).1
    ensures IsAlpha(q[i])
  {
  }

  /** Characters other than the percent sign are no parameters. */
  lemma {:induction false} SkipText(q: string, n: nat)
    requires n <= |q| && forall i :: 0 <= i < n ==> q[i] != '%'
    ensures Kinds(Parse(q)) == Kinds(Parse(q[n..]))
    decreases n
  {
    if n > 0 {
      ParseHead(q);
      SkipText(q[1..], n - 1);
      assert q[1..][n - 1..] == q[n..];
    } else {
      assert q[0..] == q;
    }
  }

  lemma {:induction false} SkipLetters(q: string)
    requires |q| > 1 && q[0] == '%' && IsAlpha(q[1])
    ensures Kinds(Parse(q)) == [Kind(q[1..]).0] + Kinds(Parse(q[1..]))
  {
    var n := Kind(q[1..]).1;
    forall i | 0 <= i < n ensures q[1..][i] != '%' {
      KindLetters(q[1..], i);
    }
    ParseHead(q);
    SkipText(q[1..], n);
    assert q[1..][n..] == q[1 + n..];
  }

  /** The first pass counts the parameters. It goes through the letters of a parameter one by one. */
  method CountParams(query: string) returns (nargs: nat)
    ensures nargs == |Kinds(Parse(query))|
  {
    nargs := 0;
    var q := query;
    while q != ""
      invariant nargs + |Kinds(Parse(q))| == |Kinds(Parse(query))|
      decreases |q|
    {
      ParseHead(q);
      if q[0] == '%' && |q| > 1 && IsAlpha(q[1]) {
        SkipLetters(q);
        nargs := nargs + 1;
      } else if q[0] == '%' && |q| > 1 && q[1] == '%' {
        q := q[1..];
      }
      q := q[1..];
    }
  }

  // ----- The second pass

  predicate IsLob(t: Type) { t == BLOB || t == CLOB }

  /** The values passed for an argument: data, length, table and column for a large object. */
  function Width(t: Type): nat { if IsLob(t) then 4 else 1 }

  /** The values passed for the first n arguments. */
  function Offset(types: seq<Type>, n: nat): nat
    requires n <= |types|
  {
    if n == 0 then 0 else Offset(types, n - 1) + Width(types[n - 1])
  }

  /** Room for n references. */
  function Room(f: Format, n: nat): nat { n * (FormatLength(f) + 14) }

  lemma {:induction false} RoomNext(f: Format, n: nat)
    requires n > 0
    ensures Room(f, n) == Room(f, n - 1) + FormatLength(f) + 14
  {
  }

  /** What has been written and what is still to be written make the query as the driver sees it. */
  ghost predicate Rewriting(query: string, f: Format, written: string, i: nat, q: string) {
    Render(Parse(query), f, 0) == written + Render(Parse(q), f, i)
  }

  ghost function PartOf(tok: Token, f: Format, i: nat): string {
    if tok.Param? then Reference(f, i + 1) else [tok.c]
  }

  ghost function CountAfter(tok: Token, i: nat): nat {
    if tok.Param? then i + 1 else i
  }

  lemma {:induction false} RenderHead(q: string, f: Format, i: nat, tok: Token, n: nat)
    requires q != "" && Head(q) == (tok, n)
    ensures Render(Parse(q), f, i) == PartOf(tok, f, i) + Render(Parse(q[n..]), f, CountAfter(tok, i))
  {
    assert Parse(q)[1..] == Parse(q[n..]);
  }

  lemma {:induction false} Together(a: string, b: string, c: string)
    ensures a + (b + c) == a + b + c
  {
  }

  lemma {:induction false} RewriteHead(query: string, f: Format, written: string, i: nat, q: string, tok: Token, n: nat)
    requires q != "" && Rewriting(query, f, written, i, q) && Head(q) == (tok, n)
    ensures Rewriting(query, f, written + PartOf(tok, f, i), CountAfter(tok, i), q[n..])
  {
    RenderHead(q, f, i, tok, n);
    Together(written, PartOf(tok, f, i), Render(Parse(q[n..]), f, CountAfter(tok, i)));
  }

  method WriteChars(pq: array<char>, at: nat, s: string)
    requires at + |s| <= pq.Length
    modifies pq
    ensures pq[..at + |s|] == old(pq[..at]) + s
  {
    var k := 0;
    while k < |s|
      invariant 0 <= k <= |s| && pq[..at + k] == old(pq[..at]) + s[..k]
    {
      pq[at + k] := s[k];
      k := k + 1;
    }
    assert s[..k] == s;
  }

  /** The types of the arguments found so far, and the values they take. */
  ghost predicate Typed(all: seq<Type>, t: seq<Type>, i: nat, nvals: nat, rest: seq<Type>) {
    i <= |t| == |all| && all == t[..i] + rest && nvals == |all| - i + Offset(t, i)
  }

  lemma {:induction false} TypedNext(all: seq<Type>, t: seq<Type>, i: nat, nvals: nat, k: Type, rest: seq<Type>)
    requires Typed(all, t, i, nvals, [k] + rest)
    ensures i < |t| && Typed(all, t[i := k], i + 1, if IsLob(k) then nvals + 3 else nvals, rest)
  {
    var t' := t[i := k];
    assert t'[..i + 1] == t[..i] + [k];
    OffsetSame(t, t', i);
  }

  lemma {:induction false} OffsetSame(s: seq<Type>, t: seq<Type>, n: nat)
    requires n <= |s| && n <= |t| && s[..n] == t[..n]
    ensures Offset(s, n) == Offset(t, n)
    decreases n
  {
    if n > 0 {
      assert s[n - 1] == s[..n][n - 1] == t[..n][n - 1] == t[n - 1];
      assert s[..n - 1] == s[..n][..n - 1] && t[..n - 1] == t[..n][..n - 1];
      OffsetSame(s, t, n - 1);
    }
  }

  /** What is left of the buffer suffices for the rest of the query. */
  ghost predicate Fits(f: Format, p: nat, q: string, left: nat, qlen: nat) {
    p + |q| + Room(f, left) + 1 <= qlen
  }

  /** The state of the second pass: what has been written, the types found, and the query left. */
  ghost predicate Scan(query: string, f: Format, w: string, t: seq<Type>, i: nat, nvals: nat, q: string, qlen: nat) {
    && i <= |t| && |q| <= |query| < 0x8000_0000 && |t| <= |query| && Fits(f, |w|, q, |t| - i, qlen)
    && Rewriting(query, f, w, i, q) && Typed(Kinds(Parse(query)), t, i, nvals, Kinds(Parse(q)))
  }

  lemma {:induction false} ScanParam(query: string, f: Format, w: string, t: seq<Type>, i: nat, nvals: nat, q: string,
                                     qlen: nat, k: Type, n: nat)
    requires Scan(query, f, w, t, i, nvals, q, qlen) && q != "" && Head(q) == (Param(k), n)
    ensures i < |t| && |w| + |Reference(f, i + 1)| < qlen
    ensures Scan(query, f, w + Reference(f, i + 1), t[i := k], i + 1, if IsLob(k) then nvals + 3 else nvals, q[n..],
                 qlen)
  {
    ParseHead(q);
    TypedNext(Kinds(Parse(query)), t, i, nvals, k, Kinds(Parse(q[n..])));
    ReferenceFits(f, i + 1);
    RoomNext(f, |t| - i);
    RewriteHead(query, f, w, i, q, Param(k), n);
  }

  lemma {:induction false} ScanText(query: string, f: Format, w: string, t: seq<Type>, i: nat, nvals: nat, q: string,
                                    qlen: nat, c: char, n: nat)
    requires Scan(query, f, w, t, i, nvals, q, qlen) && q != "" && Head(q) == (Text(c), n)
    ensures |w| + 1 < qlen && Scan(query, f, w + [c], t, i, nvals, q[n..], qlen)
  {
    ParseHead(q);
    assert [] + Kinds(Parse(q[n..])) == Kinds(Parse(q[n..]));
    RewriteHead(query, f, w, i, q, Text(c), n);
  }

  lemma {:induction false} ScanStart(query: string, f: Format, t: seq<Type>)
    requires |query| < 0x8000_0000 && |Kinds(Parse(query))| == |t|
    ensures Scan(query, f, "", t, 0, |t|, query, |query| + Room(f, |t|) + 1)
  {
    KindsShort(query);
    assert t[..0] == [];
    assert [] + Kinds(Parse(query)) == Kinds(Parse(query));
    assert "" + Render(Parse(query), f, 0) == Render(Parse(query), f, 0);
  }

  lemma {:induction false} KindsShort(q: string)
    ensures |Kinds(Parse(q))| <= |q|
    decreases |q|
  {
    if q != "" {
      ParseHead(q);
      KindsShort(q[Head(q).1..]);
    }
  }

  lemma {:induction false} ScanEnd(query: string, f: Format, w: string, t: seq<Type>, i: nat, nvals: nat, qlen: nat)
    requires Scan(query, f, w, t, i, nvals, "", qlen)
    ensures |w| < qlen
    ensures w == Render(Parse(query), f, 0)
    ensures t == Kinds(Parse(query))
    ensures i == |t|
    ensures nvals == Offset(t, |t|)
  {
    assert w + "" == w;
    assert t[..i] + [] == t[..i];
  }

  /** A parameter: its type is set down, and its reference written. */
  method RewriteParam(ghost query: string, f: Format, pq: array<char>, t: array<Type>, q: string, i: nat, p: nat,
                      nvals: nat)
    returns (q': string, p': nat, nvals': nat)
    requires p <= pq.Length
    requires Scan(query, f, pq[..p], t[..], i, nvals, q, pq.Length)
    requires |q| > 1
    requires q[0] == '%'
    requires IsAlpha(q[1])
    modifies pq, t
    ensures p' <= pq.Length && |q'| < |q| && Scan(query, f, pq[..p'], t[..], i + 1, nvals', q', pq.Length)
  {
    var kind := Kind(q[1..]);
    var reference := Reference(f, i + 1);
    ghost var w := pq[..p];
    ScanParam(query, f, w, t[..], i, nvals, q, pq.Length, kind.0, 1 + kind.1);
    t[i] := kind.0;
    nvals' := if IsLob(t[i]) then nvals + 3 else nvals;
    WriteChars(pq, p, reference);
    p' := p + |reference|;
    q' := q[1 + kind.1..];
  }

  method RewriteText(ghost query: string, ghost f: Format, pq: array<char>, ghost t: seq<Type>, q: string,
                     ghost i: nat, p: nat, ghost nvals: nat, c: char, n: nat)
    returns (q': string, p': nat)
    requires p <= pq.Length && Scan(query, f, pq[..p], t, i, nvals, q, pq.Length) && q != "" && Head(q) == (Text(c), n)
    modifies pq
    ensures p' <= pq.Length && |q'| < |q| && Scan(query, f, pq[..p'], t, i, nvals, q', pq.Length)
  {
    ScanText(query, f, pq[..p], t, i, nvals, q, pq.Length, c, n);
    WriteChars(pq, p, [c]);
    p', q' := p + 1, q[n..];
  }

  /** The second pass, when the first has counted the parameters and the buffers have been made for that number. */
  method Rewrite(query: string, f: Format, pq: array<char>, t: array<Type>, nargs: nat) returns (p: nat, nvals: nat)
    requires |query| < 0x8000_0000 && nargs == |Kinds(Parse(query))| == t.Length
    requires pq.Length == |query| + Room(f, nargs) + 1
    modifies pq, t
    ensures p < pq.Length && pq[..p + 1] == Render(Parse(query), f, 0) + ['\0']
    ensures t[..] == Kinds(Parse(query)) && nvals == Offset(t[..], nargs)
  {
    p, nvals := 0, nargs;
    var q, i := query, 0;
    ScanStart(query, f, t[..]);
    assert pq[..0] == "";
    while q != ""
      invariant 0 <= i && p <= pq.Length && Scan(query, f, pq[..p], t[..], i, nvals, q, pq.Length)
      decreases |q|
    {
      if q[0] == '%' && |q| > 1 && IsAlpha(q[1]) {
        q, p, nvals := RewriteParam(query, f, pq, t, q, i, p, nvals);
        i := i + 1;
      } else if q[0] == '%' && |q| > 1 && q[1] == '%' {
        q, p := RewriteText(query, f, pq, t[..], q, i, p, nvals, '%', 2);
      } else {
        q, p := RewriteText(query, f, pq, t[..], q, i, p, nvals, q[0], 1);
      }
    }
    ScanEnd(query, f, pq[..p], t[..], i, nvals, pq.Length);
    WriteChars(pq, p, ['\0']);
  }

  /**
    `apr_dbd_prepare`: both passes find the same parameters, the query as the driver sees it fits into the
    buffer, and the number of values is that of the values the arguments take.
   */
  method Prepare(query: string, f: Format) returns (pq: array<char>, p: nat, t: array<Type>, nargs: nat, nvals: nat)
    requires |query| < 0x8000_0000
    ensures nargs == t.Length && t[..] == Kinds(Parse(query)) && nvals == Offset(t[..], nargs)
    ensures p < pq.Length && pq[..p + 1] == Render(Parse(query), f, 0) + ['\0']
    ensures pq.Length == |query| + nargs * (FormatLength(f) + 14) + 1
  {
    nargs := CountParams(query);
    pq := new char[|query| + Room(f, nargs) + 1];
    t := new Type[nargs];
    p, nvals := Rewrite(query, f, pq, t, nargs);
  }
}
