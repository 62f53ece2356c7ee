/**
  The PostgreSQL driver: binding of values and the command that prepares a statement
  (apr-util/dbd/apr_dbd_pgsql.c).
 */
module DbdPgsql {
  import opened DbdPrepare

  // ----- Binding

  datatype Value = Null | Str(s: string)

  /** How far the binder goes for an argument whose first value is v. */
  function Taken(t: Type, v: Value): nat {
    if v.Null? then 1 else Width(t)
  }

  /** The value the binder takes for argument n, and one past the values taken for those before it. */
  function Position(types: seq<Type>, values: seq<Value>, n: nat): (j: nat)
    requires n <= |types| && Offset(types, |types|) <= |values|
    ensures j <= Offset(types, n) <= Offset(types, |types|) && (n < |types| ==> j < |values|)
  {
    OffsetGrows(types, n, |types|);
    if n == 0 then 0 else Position(types, values, n - 1) + Taken(types[n - 1], values[Position(types, values, n - 1)])
  }

  lemma {:induction false} OffsetGrows(types: seq<Type>, m: nat, n: nat)
    requires m <= n <= |types|
    ensures Offset(types, m) + (n - m) <= Offset(types, n)
    decreases n
  {
    if m < n {
      OffsetGrows(types, m, n - 1);
    }
  }

  /** The data of every large object before argument n is there. */
  ghost predicate LobsPresent(types: seq<Type>, values: seq<Value>, n: nat)
    requires n <= |types| && Offset(types, |types|) <= |values|
  {
    forall k :: 0 <= k < n && IsLob(types[k]) ==> !LobMissing(types, values, k)
  }

  ghost predicate LobMissing(types: seq<Type>, values: seq<Value>, k: nat)
    requires k < |types| && Offset(types, |types|) <= |values|
  {
    OffsetGrows(types, k, |types|);
    values[Offset(types, k)].Null?
  }

  /** Arguments get the values passed for them up to the first large object whose data is missing, and no further. */
  lemma {:induction false} AlignedIff(types: seq<Type>, values: seq<Value>, n: nat)
    requires n <= |types| && Offset(types, |types|) <= |values|
    ensures Position(types, values, n) == Offset(types, n) <==> LobsPresent(types, values, n)
    decreases n
  {
    if n > 0 {
      AlignedIff(types, values, n - 1);
      var j := Position(types, values, n - 1);
      if LobsPresent(types, values, n) {
        assert LobsPresent(types, values, n - 1);
        assert IsLob(types[n - 1]) ==> !LobMissing(types, values, n - 1);
      }
      if Position(types, values, n) == Offset(types, n) {
        assert j == Offset(types, n - 1);
      }
    }
  }

  /** What the binder leaves for an argument: the value, and for a large object that is there its length, in binary. */
  ghost predicate Bound(types: seq<Type>, values: seq<Value>, k: nat, val: Value, len: Value, fmt: int)
    requires k < |types| && Offset(types, |types|) <= |values|
  {
    var j := Position(types, values, k);
    && val == values[j]
    && if IsLob(types[k]) && values[j] != Null
       then j + 1 < |values| && len == values[j + 1] && fmt == 1 else len == Null && fmt == 0
  }

  lemma {:induction false} LobWithin(types: seq<Type>, values: seq<Value>, i: nat)
    requires i < |types| && Offset(types, |types|) <= |values|
    ensures Position(types, values, i) + Taken(types[i], values[Position(types, values, i)]) <= Offset(types, |types|)
  {
    OffsetGrows(types, i + 1, |types|);
  }

  /** A large object with data is passed without a length. */
  ghost predicate LengthMissing(types: seq<Type>, values: seq<Value>, k: nat)
    requires k < |types| && Offset(types, |types|) <= |values|
  {
    var j := Position(types, values, k);
    IsLob(types[k]) && values[j] != Null && j + 1 < |values| && values[j + 1] == Null
  }

  /**
    `dbd_pgsql_bind`, with arrays that have been cleared. It reads no value behind those passed, and gives
    each argument the value at its position. It fails exactly when `atoi` would be given a NULL, for the
    length of a large object that has data.
   */
  method Bind(types: seq<Type>, values: seq<Value>, val: array<Value>, len: array<Value>, fmt: array<int>)
    returns (ok: bool, ghost j: nat)
    requires val.Length == len.Length == fmt.Length == |types| && val != len && Offset(types, |types|) <= |values|
    requires forall k :: 0 <= k < |types| ==> len[k] == Null && fmt[k] == 0
    modifies val, len, fmt
    ensures ok <==> forall k :: 0 <= k < |types| ==> !LengthMissing(types, values, k)
    ensures ok ==> j == Position(types, values, |types|) <= Offset(types, |types|)
    ensures ok ==> forall k :: 0 <= k < |types| ==> Bound(types, values, k, val[k], len[k], fmt[k])
  {
    var i, next := 0, 0;
    while i < |types|
      invariant 0 <= i <= |types| && next == Position(types, values, i)
      invariant forall k :: 0 <= k < i ==> Bound(types, values, k, val[k], len[k], fmt[k])
      invariant forall k :: 0 <= k < i ==> !LengthMissing(types, values, k)
      invariant forall k :: i <= k < |types| ==> len[k] == Null && fmt[k] == 0
    {
      LobWithin(types, values, i);
      if values[next] == Null {
        val[i] := Null;
      } else if IsLob(types[i]) {
        val[i] := values[next];
        next := next + 1;
        if values[next] == Null {
          assert LengthMissing(types, values, i);
          return false, next;
        }
        len[i] := values[next];
        fmt[i] := 1;
        next := next + 2;
      } else {
        val[i] := values[next];
      }
      i, next := i + 1, next + 1;
    }
    ok, j := true, next;
  }

  /** A large object with data and a NULL for its length. */
  lemma {:induction false} LengthAbsent()
    ensures var values := [Str("data"), Null, Str("table"), Str("column")];
      Offset([BLOB], 1) == |values| && LengthMissing([BLOB], values, 0)
  {
    assert Offset([BLOB], 1) == Offset([BLOB], 0) + 4;
  }

  /** A large object without data, and then a string: the string gets the length passed for the object. */
  lemma {:induction false} Misaligned()
    ensures var types := [BLOB, STRING]; var values := [Null, Str("4"), Str("table"), Str("column"), Str("text")];
      && Offset(types, 2) == |values| && Position(types, values, 1) == 1 && Offset(types, 1) == 4
      && values[Position(types, values, 1)] == Str("4")
  {
    var types := [BLOB, STRING];
    assert Offset(types, 1) == Offset(types, 0) + 4 && Offset(types, 2) == Offset(types, 1) + 1;
  }

  // ----- The command

  function SqlName(t: Type): string {
    match t
    case TINY => "smallint" case UTINY => "smallint" case SHORT => "smallint" case USHORT => "smallint"
    case INT => "integer" case UINT => "integer"
    case LONG => "bigint" case ULONG => "bigint" case LONGLONG => "bigint" case ULONGLONG => "bigint"
    case FLOAT => "real" case DOUBLE => "double precision" case TEXT => "text" case TIME => "time" case DATE => "date"
    case DATETIME => "timestamp" case TIMESTAMP => "timestamp" case ZTIMESTAMP => "timestamp with time zone"
    case BLOB => "bytea" case CLOB => "bytea" case NULL => "varchar" case STRING => "varchar"
  }

  /** The names, with commas between them. */
  function Joined(types: seq<Type>): string {
    if types == [] then ""
    else if |types| == 1 then SqlName(types[0])
    else Joined(types[..|types| - 1]) + "," + SqlName(types[|types| - 1])
  }

  function Command(name: string, types: seq<Type>, query: string): string {
    "PREPARE " + name + (if types == [] then "" else " (" + Joined(types) + ")") + " AS " + query
  }

  /** The space the names take, each with one character more. */
  function NamesLength(types: seq<Type>): nat {
    if types == [] then 0 else NamesLength(types[..|types| - 1]) + 1 + |SqlName(types[|types| - 1])|
  }

  lemma {:induction false} JoinedLength(types: seq<Type>)
    requires types != []
    ensures |Joined(types)| + 1 == NamesLength(types)
  {
    if |types| > 1 {
      JoinedLength(types[..|types| - 1]);
    } else {
      assert types[..0] == [];
    }
  }

  lemma {:induction false} TakeNext(types: seq<Type>, i: nat)
    requires i < |types|
    ensures NamesLength(types[..i + 1]) == NamesLength(types[..i]) + 1 + |SqlName(types[i])|
    ensures i > 0 ==> Joined(types[..i + 1]) == Joined(types[..i]) + "," + SqlName(types[i])
    ensures i == 0 ==> Joined(types[..1]) == SqlName(types[0])
  {
    assert types[..i + 1][..i] == types[..i];
  }

  /** The length reserved for the command. */
  method CommandLength(name: string, types: seq<Type>, query: string) returns (length: nat)
    ensures length == 8 + |name| + 2 + 4 + |query| + 1 + NamesLength(types) + 1
  {
    length := |query| + 1;
    var i := 0;
    while i < |types|
      invariant 0 <= i <= |types| && length == |query| + 1 + NamesLength(types[..i])
    {
      TakeNext(types, i);
      length := length + 1 + |SqlName(types[i])|;
      i := i + 1;
    }
    assert types[..i] == types;
    length := 8 + |name| + 2 + 4 + length + 1;
  }

  /** Writes s behind what has been written. */
  method Write(cmd: array<char>, p: nat, s: string, ghost w: string) returns (p': nat)
    requires p + |s| <= cmd.Length && cmd[..p] == w
    modifies cmd
    ensures p' == p + |s| && cmd[..p'] == w + s
  {
    WriteChars(cmd, p, s);
    p' := p + |s|;
  }

  /** The list after i names: each has a comma behind it. */
  ghost function Listed(types: seq<Type>, i: nat): string
    requires i <= |types|
  {
    if i == 0 then "" else Joined(types[..i]) + ","
  }

  lemma {:induction false} ListedNext(w: string, types: seq<Type>, i: nat)
    requires i < |types|
    ensures w + Listed(types, i + 1) == w + Listed(types, i) + SqlName(types[i]) + ","
  {
    TakeNext(types, i);
    var name := SqlName(types[i]);
    if i == 0 {
      assert w + "" == w;
      Together(w, name, ",");
    } else {
      var list := Joined(types[..i]);
      Together(w, list + ",", name);
      Together(w, list + "," + name, ",");
    }
  }

  lemma {:induction false} CommaReplaced(w: string, types: seq<Type>, s: string)
    requires types != [] && s == w + Listed(types, |types|)
    ensures s != "" && s[..|s| - 1] + ")" == w + Joined(types) + ")"
  {
    assert types[..|types|] == types;
  }

  method WriteName(cmd: array<char>, p: nat, name: string, ghost w: string) returns (p': nat)
    requires p + |name| + 1 <= cmd.Length && cmd[..p] == w
    modifies cmd
    ensures p' == p + |name| + 1 && cmd[..p'] == w + name + ","
  {
    p' := Write(cmd, p, name, w);
    p' := Write(cmd, p', ",", w + name);
  }

  /** Each name is written with a comma, and the last comma becomes the parenthesis. */
  method WriteNames(types: seq<Type>, cmd: array<char>, at: nat, ghost w: string) returns (p: nat)
    requires types != [] && at + NamesLength(types) <= cmd.Length && cmd[..at] == w
    modifies cmd
    ensures p == at + NamesLength(types) && cmd[..p] == w + Joined(types) + ")"
  {
    p := at;
    var i := 0;
    assert w + "" == w;
    while i < |types|
      invariant 0 <= i <= |types| && p == at + NamesLength(types[..i]) <= cmd.Length
      invariant cmd[..p] == w + Listed(types, i)
    {
      TakeNext(types, i);
      NamesFit(types, i + 1);
      ListedNext(w, types, i);
      p := WriteName(cmd, p, SqlName(types[i]), w + Listed(types, i));
      i := i + 1;
    }
    CommaReplaced(w, types, cmd[..p]);
    assert types[..i] == types;
    WriteChars(cmd, p - 1, ")");
  }

  lemma {:induction false} NamesFit(types: seq<Type>, i: nat)
    requires i <= |types|
    ensures NamesLength(types[..i]) <= NamesLength(types)
    decreases |types| - i
  {
    if i == |types| {
      assert types[..i] == types;
    } else {
      TakeNext(types, i);
      NamesFit(types, i + 1);
    }
  }

  /** The builder in `dbd_pgsql_prepare`: the command and its NUL stay within the length reserved for them. */
  method BuildCommand(name: string, types: seq<Type>, query: string) returns (cmd: array<char>, p: nat)
    ensures p < cmd.Length && cmd[..p + 1] == Command(name, types, query) + ['\0']
  {
    var length := CommandLength(name, types, query);
    cmd := new char[length];
    p := Write(cmd, 0, "PREPARE ", "");
    p := Write(cmd, p, name, "" + "PREPARE ");
    ghost var w := "PREPARE " + name;
    assert "" + "PREPARE " == "PREPARE ";
    if types != [] {
      p := Write(cmd, p, " (", w);
      p := WriteNames(types, cmd, p, w + " (");
      Together(w, " (", Joined(types));
      Together(w, " (" + Joined(types), ")");
      w := w + (" (" + Joined(types) + ")");
    } else {
      assert w + "" == w;
    }
    p := Write(cmd, p, " AS ", w);
    p := Write(cmd, p, query, w + " AS ");
    var end := Write(cmd, p, ['\0'], w + " AS " + query);
  }
}
