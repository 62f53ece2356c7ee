/**
  `prepare`, `tsort` and `sort_hook` of apr-util/hooks/apr_hooks.c, in place.

  A `TSort *` into the array `pData` is the index of its element and `NULL` is `NIL`, so
  `ppPredecessors` is a two-dimensional array of indices. The result of `qsort` is a
  parameter: any permutation sorted by `nOrder`.
 */
module HookSort {
  import opened Distinctness
  import opened HookOrder

  const NIL := -1

  datatype Hook = Hook(name: string, predecessors: seq<string>, successors: seq<string>, order: int)

  // ----- Which item a name stands for, and the constraints a set of hooks states

  /** `strcmp` scans from the first item, so a name stands for the first item that bears it. */
  ghost predicate Denotes(items: seq<Hook>, name: string, k: nat) {
    k < |items| && items[k].name == name && forall j :: 0 <= j < k ==> items[j].name != name
  }

  ghost predicate Named(items: seq<Hook>, names: seq<string>, k: nat) {
    exists i :: 0 <= i < |names| && Denotes(items, names[i], k)
  }

  /** Item k has to run before item n: n asked for it, or k did. */
  ghost predicate MustPrecede(items: seq<Hook>, k: nat, n: nat) {
    && k < |items| && n < |items|
    && (Named(items, items[n].predecessors, k) || Named(items, items[k].successors, n))
  }

  ghost predicate States(rows: Rows, items: seq<Hook>) {
    && |rows| == |items|
    && forall n, k: nat :: 0 <= n < |rows| ==> (k in rows[n] <==> MustPrecede(items, k, n))
  }

  // ----- Correspondence of the arrays with the machine's rows

  ghost function Slot(row: seq<nat>, order: seq<nat>, k: nat): int {
    if k < |row| && row[k] !in order then row[k] else NIL
  }

  ghost predicate RowHolds(nPred: array<int>, pred: array2<int>, i: nat, row: seq<nat>, order: seq<nat>)
    requires i < nPred.Length && i < pred.Length0
    reads nPred, pred
  {
    && |row| <= pred.Length1
    && nPred[i] == Left(row, order)
    && forall k :: 0 <= k < pred.Length1 ==> pred[i, k] == Slot(row, order, k)
  }

  /** `nPredecessors` counts the slots that are not NULL; those hold the predecessors not yet linked. */
  ghost predicate TableHolds(nPred: array<int>, pred: array2<int>, rows: Rows, order: seq<nat>)
    reads nPred, pred
  {
    && nPred.Length == pred.Length0 == pred.Length1 == |rows|
    && WellFormed(rows)
    && forall i :: 0 <= i < |rows| ==> RowHolds(nPred, pred, i, rows[i], order)
  }

  /** The list under construction; its last element points to itself so that it looks linked. */
  ghost predicate Linked(next: array<int>, order: seq<nat>)
    reads next
  {
    && Distinct(order)
    && (forall t :: 0 <= t < |order| ==> order[t] < next.Length)
    && (forall i: nat :: i < next.Length ==> (next[i] == NIL <==> i !in order))
    && (forall t :: 0 <= t < |order| - 1 ==> next[order[t]] == order[t + 1])
    && (order != [] ==> next[order[|order| - 1]] == order[|order| - 1])
  }

  /** The finished, NULL-terminated list. */
  ghost predicate ListOf(next: array<int>, head: int, order: seq<nat>)
    reads next
  {
    && order != [] && head == order[0]
    && (forall t :: 0 <= t < |order| ==> order[t] < next.Length)
    && (forall t :: 0 <= t < |order| - 1 ==> next[order[t]] == order[t + 1])
    && next[order[|order| - 1]] == NIL
  }

  // ----- Counting

  lemma {:induction false} LeftZero(row: seq<nat>, order: seq<nat>)
    ensures Left(row, order) == 0 <==> FirstLeft(row, order) == |row|
  {
    if row != [] {
      var short := row[..|row| - 1];
      LeftZero(short, order);
      assert row == short + [row[|row| - 1]];
      assert forall j :: 0 <= j < |short| ==> row[j] == short[j];
    }
  }

  lemma {:induction false} LeftAfter(row: seq<nat>, order: seq<nat>, n: nat)
    requires Distinct(row) && n !in order
    ensures Left(row, order + [n]) == Left(row, order) - if n in row then 1 else 0
  {
    if row != [] {
      var short := row[..|row| - 1];
      LeftAfter(short, order, n);
      assert row == short + [row[|row| - 1]];
    }
  }

  lemma {:induction false} LeftAll(row: seq<nat>)
    ensures Left(row, []) == |row|
  {
    if row != [] {
      LeftAll(row[..|row| - 1]);
    }
  }

  // ----- prepare

  function AddUnique(row: seq<nat>, k: nat): seq<nat> {
    if k in row then row else row + [k]
  }

  /** Scan for the first item that bears the name; `|items|` if there is none. */
  method Find(items: seq<Hook>, name: string) returns (k: nat)
    ensures k <= |items|
    ensures k < |items| ==> Denotes(items, name, k)
    ensures k == |items| ==> forall j :: !Denotes(items, name, j)
  {
    k := 0;
    while k < |items| && items[k].name != name
      invariant k <= |items|
      invariant forall j :: 0 <= j < k ==> items[j].name != name
    {
      k := k + 1;
    }
  }

  lemma {:induction false} AddFits(rows: Rows, i: nat, k: nat)
    requires WellFormed(rows) && i < |rows| && k < |rows|
    ensures WellFormed(rows[i := AddUnique(rows[i], k)])
    ensures |AddUnique(rows[i], k)| <= |rows|
  {
    var row' := AddUnique(rows[i], k);
    assert forall j :: 0 <= j < |row'| ==> row'[j] == k || row'[j] in rows[i];
    Pigeonhole(row', |rows|);
  }

  /** Record that item k has to run before item i, once. */
  method AddPredecessor(nPred: array<int>, pred: array2<int>, i: nat, k: nat, ghost rows: Rows)
    requires TableHolds(nPred, pred, rows, [])
    requires i < |rows| && k < |rows|
    modifies nPred, pred
    ensures TableHolds(nPred, pred, rows[i := AddUnique(rows[i], k)], [])
  {
    AddFits(rows, i, k);
    LeftAll(rows[i]);
    LeftAll(AddUnique(rows[i], k));
    var l := 0;
    while l < nPred[i]
      invariant 0 <= l <= |rows[i]|
      invariant forall j :: 0 <= j < l ==> rows[i][j] != k
    {
      if pred[i, l] == k {
        return;
      }
      l := l + 1;
    }
    assert k !in rows[i];
    pred[i, nPred[i]] := k;
    nPred[i] := nPred[i] + 1;
    ghost var row' := AddUnique(rows[i], k);
    assert RowHolds(nPred, pred, i, row', []);
    forall j | 0 <= j < |rows| && j != i ensures RowHolds(nPred, pred, j, rows[j], []) {
      assert old(RowHolds(nPred, pred, j, rows[j], []));
    }
  }

  /** The constraints stated by the items before n, by the first a predecessors and the first b successors of n. */
  ghost predicate Stated(items: seq<Hook>, n: nat, a: nat, b: nat, k: nat, i: nat)
    requires n <= |items|
    requires n < |items| ==> a <= |items[n].predecessors| && b <= |items[n].successors|
  {
    && k < |items| && i < |items|
    && (|| (i < n && Named(items, items[i].predecessors, k))
        || (k < n && Named(items, items[k].successors, i))
        || (n < |items| && i == n && Named(items, items[n].predecessors[..a], k))
        || (n < |items| && k == n && Named(items, items[n].successors[..b], i)))
  }

  ghost predicate StatedRows(rows: Rows, items: seq<Hook>, n: nat, a: nat, b: nat)
    requires n <= |items|
    requires n < |items| ==> a <= |items[n].predecessors| && b <= |items[n].successors|
  {
    && |rows| == |items|
    && forall i, k: nat :: 0 <= i < |rows| ==> (k in rows[i] <==> Stated(items, n, a, b, k, i))
  }

  lemma {:induction false} NamedNext(items: seq<Hook>, names: seq<string>, a: nat, k: nat)
    requires a < |names|
    ensures Named(items, names[..a + 1], k) <==> Named(items, names[..a], k) || Denotes(items, names[a], k)
  {
    var now, next := names[..a], names[..a + 1];
    assert forall j :: 0 <= j < a ==> now[j] == next[j];
    assert next[a] == names[a];
    if Named(items, now, k) {
      var j :| 0 <= j < |now| && Denotes(items, now[j], k);
      assert Denotes(items, next[j], k);
    }
    if Denotes(items, names[a], k) {
      assert Denotes(items, next[a], k);
    }
    if Named(items, next, k) {
      var j :| 0 <= j < |next| && Denotes(items, next[j], k);
      assert j < a ==> Denotes(items, now[j], k);
    }
  }

  lemma {:induction false} StatedByPredecessor(rows: Rows, items: seq<Hook>, n: nat, a: nat, f: nat)
    requires n < |items| && a < |items[n].predecessors|
    requires StatedRows(rows, items, n, a, 0)
    requires f <= |items| && (f < |items| ==> Denotes(items, items[n].predecessors[a], f))
    requires f == |items| ==> forall j :: !Denotes(items, items[n].predecessors[a], j)
    ensures StatedRows(if f < |items| then rows[n := AddUnique(rows[n], f)] else rows, items, n, a + 1, 0)
  {
    forall i, k: nat | 0 <= i < |rows|
      ensures Stated(items, n, a + 1, 0, k, i) <==>
              Stated(items, n, a, 0, k, i) || (i == n && k == f && f < |items|)
    {
      NamedNext(items, items[n].predecessors, a, k);
    }
  }

  lemma {:induction false} StatedBySuccessor(rows: Rows, items: seq<Hook>, n: nat, b: nat, f: nat)
    requires n < |items| && b < |items[n].successors|
    requires StatedRows(rows, items, n, |items[n].predecessors|, b)
    requires f <= |items| && (f < |items| ==> Denotes(items, items[n].successors[b], f))
    requires f == |items| ==> forall j :: !Denotes(items, items[n].successors[b], j)
    ensures StatedRows(if f < |items| then rows[f := AddUnique(rows[f], n)] else rows, items,
                       n, |items[n].predecessors|, b + 1)
  {
    forall i, k: nat | 0 <= i < |rows|
      ensures Stated(items, n, |items[n].predecessors|, b + 1, k, i) <==>
              Stated(items, n, |items[n].predecessors|, b, k, i) || (k == n && i == f && f < |items|)
    {
      NamedNext(items, items[n].successors, b, i);
    }
  }

  lemma {:induction false} StatedByItem(rows: Rows, items: seq<Hook>, n: nat)
    requires n < |items|
    requires StatedRows(rows, items, n, |items[n].predecessors|, |items[n].successors|)
    ensures n + 1 < |items| ==> StatedRows(rows, items, n + 1, 0, 0)
    ensures n + 1 == |items| ==> StatedRows(rows, items, n + 1, 0, 0) && States(rows, items)
  {
    assert items[n].predecessors[..|items[n].predecessors|] == items[n].predecessors;
    assert items[n].successors[..|items[n].successors|] == items[n].successors;
    forall i, k: nat | 0 <= i < |rows|
      ensures Stated(items, n + 1, 0, 0, k, i) <==>
              Stated(items, n, |items[n].predecessors|, |items[n].successors|, k, i)
    {
    }
    if n + 1 == |items| {
      forall i, k: nat | 0 <= i < |rows|
        ensures Stated(items, n + 1, 0, 0, k, i) <==> MustPrecede(items, k, i)
      {
      }
    }
  }

  method AddNamedPredecessor(items: seq<Hook>, n: nat, i: nat, nPred: array<int>, pred: array2<int>, ghost rows0: Rows)
    returns (ghost rows: Rows)
    requires n < |items| && i < |items[n].predecessors|
    requires TableHolds(nPred, pred, rows0, []) && StatedRows(rows0, items, n, i, 0)
    modifies nPred, pred
    ensures TableHolds(nPred, pred, rows, []) && StatedRows(rows, items, n, i + 1, 0)
  {
    rows := rows0;
    var k := Find(items, items[n].predecessors[i]);
    StatedByPredecessor(rows, items, n, i, k);
    if k < |items| {
      AddPredecessor(nPred, pred, n, k, rows);
      rows := rows[n := AddUnique(rows[n], k)];
    }
  }

  method AddNamedSuccessor(items: seq<Hook>, n: nat, i: nat, nPred: array<int>, pred: array2<int>, ghost rows0: Rows)
    returns (ghost rows: Rows)
    requires n < |items| && i < |items[n].successors|
    requires TableHolds(nPred, pred, rows0, []) && StatedRows(rows0, items, n, |items[n].predecessors|, i)
    modifies nPred, pred
    ensures TableHolds(nPred, pred, rows, []) && StatedRows(rows, items, n, |items[n].predecessors|, i + 1)
  {
    rows := rows0;
    var k := Find(items, items[n].successors[i]);
    StatedBySuccessor(rows, items, n, i, k);
    if k < |items| {
      AddPredecessor(nPred, pred, k, n, rows);
      rows := rows[k := AddUnique(rows[k], n)];
    }
  }

  method AddConstraintsOf(items: seq<Hook>, n: nat, nPred: array<int>, pred: array2<int>, ghost rows0: Rows)
    returns (ghost rows: Rows)
    requires n < |items| && TableHolds(nPred, pred, rows0, []) && StatedRows(rows0, items, n, 0, 0)
    modifies nPred, pred
    ensures TableHolds(nPred, pred, rows, [])
    ensures StatedRows(rows, items, n, |items[n].predecessors|, |items[n].successors|)
  {
    rows := rows0;
    var i := 0;
    while i < |items[n].predecessors|
      invariant 0 <= i <= |items[n].predecessors|
      invariant TableHolds(nPred, pred, rows, [])
      invariant StatedRows(rows, items, n, i, 0)
    {
      rows := AddNamedPredecessor(items, n, i, nPred, pred, rows);
      i := i + 1;
    }
    i := 0;
    while i < |items[n].successors|
      invariant 0 <= i <= |items[n].successors|
      invariant TableHolds(nPred, pred, rows, [])
      invariant StatedRows(rows, items, n, |items[n].predecessors|, i)
    {
      rows := AddNamedSuccessor(items, n, i, nPred, pred, rows);
      i := i + 1;
    }
  }

  /** The table for `tsort`: row n holds, once each, the items that have to run before item n. */
  method Prepare(items: seq<Hook>)
    returns (nPred: array<int>, pred: array2<int>, next: array<int>, ghost rows: Rows)
    requires |items| > 0
    ensures fresh(nPred) && fresh(pred) && fresh(next) && nPred != next
    ensures TableHolds(nPred, pred, rows, [])
    ensures next.Length == |items| && forall i :: 0 <= i < next.Length ==> next[i] == NIL
    ensures States(rows, items)
  {
    var nItems := |items|;
    nPred := new int[nItems](_ => 0);
    pred := new int[nItems, nItems]((_, _) => NIL);
    next := new int[nItems](_ => NIL);
    rows := seq(nItems, _ => []);
    assert forall i :: 0 <= i < nItems ==> RowHolds(nPred, pred, i, rows[i], []);
    var n := 0;
    while n < nItems
      invariant 0 <= n <= nItems
      invariant TableHolds(nPred, pred, rows, [])
      invariant StatedRows(rows, items, n, 0, 0)
      invariant n == nItems ==> States(rows, items)
      invariant forall i :: 0 <= i < next.Length ==> next[i] == NIL
    {
      rows := AddConstraintsOf(items, n, nPred, pred, rows);
      StatedByItem(rows, items, n);
      n := n + 1;
    }
  }

  // ----- tsort

  /** The first slot that is not NULL; there is one, so the assertion on k does not fail. */
  method FirstSlot(pred: array2<int>, n: nat, ghost row: seq<nat>, ghost order: seq<nat>) returns (k: nat)
    requires n < pred.Length0 && |row| <= pred.Length1
    requires forall k :: 0 <= k < pred.Length1 ==> pred[n, k] == Slot(row, order, k)
    requires FirstLeft(row, order) < |row|
    ensures k == FirstLeft(row, order) && k < pred.Length1 && pred[n, k] == row[k]
  {
    k := 0;
    while pred[n, k] == NIL
      invariant 0 <= k <= FirstLeft(row, order)
      decreases |row| - k
    {
      k := k + 1;
    }
  }

  /** Clear the slots that hold n, at most one in each row. */
  method DropPredecessor(nPred: array<int>, pred: array2<int>, n: nat, ghost rows: Rows, ghost order: seq<nat>)
    requires TableHolds(nPred, pred, rows, order)
    requires n < |rows| && n !in order
    modifies nPred, pred
    ensures TableHolds(nPred, pred, rows, order + [n])
  {
    var nItems := nPred.Length;
    ghost var order' := order + [n];
    var i := 0;
    while i < nItems
      invariant 0 <= i <= nItems
      invariant forall j :: 0 <= j < i ==> RowHolds(nPred, pred, j, rows[j], order')
      invariant forall j :: i <= j < nItems ==> RowHolds(nPred, pred, j, rows[j], order)
    {
      DropFromRow(nPred, pred, i, n, rows, order);
      i := i + 1;
    }
  }

  method DropFromRow(nPred: array<int>, pred: array2<int>, i: nat, n: nat, ghost rows: Rows, ghost order: seq<nat>)
    requires nPred.Length == pred.Length0 == pred.Length1 == |rows| && WellFormed(rows)
    requires n !in order && i < |rows| && RowHolds(nPred, pred, i, rows[i], order)
    modifies nPred, pred
    ensures RowHolds(nPred, pred, i, rows[i], order + [n])
    ensures forall j :: 0 <= j < |rows| && j != i ==> nPred[j] == old(nPred[j])
    ensures forall j, k :: 0 <= j < |rows| && j != i && 0 <= k < |rows| ==> pred[j, k] == old(pred[j, k])
  {
    ghost var row := rows[i];
    LeftAfter(row, order, n);
    var k := 0;
    while k < pred.Length1
      invariant 0 <= k <= pred.Length1
      invariant forall j :: 0 <= j < k && j < |row| ==> row[j] != n
      invariant nPred[i] == Left(row, order)
      invariant forall k :: 0 <= k < pred.Length1 ==> pred[i, k] == Slot(row, order, k)
      invariant forall j :: 0 <= j < |rows| && j != i ==> nPred[j] == old(nPred[j])
      invariant forall j, k :: 0 <= j < |rows| && j != i && 0 <= k < |rows| ==> pred[j, k] == old(pred[j, k])
    {
      if pred[i, k] == n {
        nPred[i] := nPred[i] - 1;
        pred[i, k] := NIL;
        assert row[k] == n;
        return;
      }
      k := k + 1;
    }
    assert n !in row;
  }

  /** From an item that still waits for others, go to the first of them. */
  method Jump(nPred: array<int>, pred: array2<int>, n: nat, ghost rows: Rows, ghost order: seq<nat>) returns (i: nat)
    requires TableHolds(nPred, pred, rows, order) && n < |rows| && nPred[n] != 0
    ensures FirstLeft(rows[n], order) < |rows[n]| && i == rows[n][FirstLeft(rows[n], order)]
  {
    LeftZero(rows[n], order);
    assert RowHolds(nPred, pred, n, rows[n], order);
    var k := FirstSlot(pred, n, rows[n], order);
    i := 0;
    while i != pred[n, k]
      invariant 0 <= i <= pred[n, k]
      decreases pred[n, k] - i
    {
      i := i + 1;
    }
  }

  lemma {:induction false} ReadyWhenZero(nPred: array<int>, pred: array2<int>, n: nat, rows: Rows, order: seq<nat>)
    requires TableHolds(nPred, pred, rows, order) && n < |rows|
    ensures nPred[n] == 0 <==> FirstLeft(rows[n], order) == |rows[n]|
  {
    LeftZero(rows[n], order);
    assert RowHolds(nPred, pred, n, rows[n], order);
  }

  /** `for (n = 0; ; ++n)` of tsort: find the item to link next. It follows the machine step by step. */
  method FindReady(nPred: array<int>, pred: array2<int>, next: array<int>, ghost rows: Rows, ghost order: seq<nat>,
                   ghost before: nat, ghost total: nat)
    returns (n: nat, ghost steps: nat)
    requires TableHolds(nPred, pred, rows, order) && next.Length == |rows|
    requires forall i: nat :: i < next.Length ==> (next[i] == NIL <==> i !in order)
    requires |order| < |rows|
    requires Run(rows, before) == Searching(order, 0, []) && Run(rows, total).Sorted?
    ensures n < |rows| && n !in order
    ensures Run(rows, steps) == Searching(order + [n], 0, [])
  {
    steps := before;
    ghost var path: seq<nat> := [];
    n := 0;
    while true
      invariant Run(rows, steps) == Searching(order, n, path)
      decreases total - steps
    {
      SearchGoesOn(rows, steps, total);
      assert n != nPred.Length; // "we have a loop..." is not reached
      assert Run(rows, steps + 1) == Step(rows, Searching(order, n, path));
      steps := steps + 1;
      if next[n] == NIL {
        ReadyWhenZero(nPred, pred, n, rows, order);
        if nPred[n] != 0 {
          var i := Jump(nPred, pred, n, rows, order);
          path := (if path == [] then [n] else path) + [i];
          n := i;
        } else {
          return;
        }
      } else {
        n := n + 1;
      }
    }
  }

  /** Link the item after the tail and let it point to itself. */
  method LinkTail(next: array<int>, tail: int, n: nat, ghost order: seq<nat>)
    requires Linked(next, order) && n < next.Length && n !in order
    requires tail == if order == [] then NIL else order[|order| - 1]
    modifies next
    ensures Linked(next, order + [n])
  {
    ghost var order' := order + [n];
    if tail != NIL {
      next[tail] := n;
    }
    next[n] := n;
    assert forall i :: i in order' <==> i in order || i == n;
  }

  method TSort(nPred: array<int>, pred: array2<int>, next: array<int>, ghost rows: Rows)
    returns (head: int, ghost order: seq<nat>)
    requires TableHolds(nPred, pred, rows, []) && |rows| > 0 && Acyclic(rows)
    requires next.Length == |rows| && next != nPred && forall i :: 0 <= i < next.Length ==> next[i] == NIL
    modifies nPred, pred, next
    ensures |order| == |rows| && GoodOrder(rows, order)
    ensures exists steps :: Run(rows, steps) == Sorted(order)
    ensures ListOf(next, head, order)
  {
    var nItems := nPred.Length;
    ghost var total := SearchEnds(rows, 0, Run(rows, 0));
    ghost var steps := 0;
    head, order := NIL, [];
    var tail := NIL;
    var nTotal := 0;
    while nTotal < nItems
      invariant nTotal == |order| <= nItems
      invariant TableHolds(nPred, pred, rows, order) && Linked(next, order)
      invariant Run(rows, steps) == Searching(order, 0, [])
      invariant tail == if order == [] then NIL else order[|order| - 1]
      invariant head == if order == [] then NIL else order[0]
    {
      var n;
      n, steps := FindReady(nPred, pred, next, rows, order, steps, total);
      LinkTail(next, tail, n, order);
      if tail == NIL {
        head := n;
      }
      tail := n;
      DropPredecessor(nPred, pred, n, rows, order);
      order := order + [n];
      nTotal := nTotal + 1;
    }
    next[tail] := NIL; // unfudge the tail
    Finished(rows, steps);
  }

  // ----- sort_hook

  ghost predicate SortedByOrder(items: seq<Hook>) {
    forall i, j :: 0 <= i < j < |items| ==> items[i].order <= items[j].order
  }

  /** `order` is a rearrangement of 0..n. */
  ghost predicate Permutes(order: seq<nat>, n: nat) {
    Distinct(order) && |order| == n && forall t :: 0 <= t < |order| ==> order[t] < n
  }

  ghost function Composed(p: seq<nat>, order: seq<nat>): (r: seq<nat>)
    requires Permutes(p, |p|) && Permutes(order, |p|)
    ensures Permutes(r, |p|)
    ensures forall t :: 0 <= t < |p| ==> r[t] == p[order[t]]
  {
    seq(|order|, t requires 0 <= t < |order| => p[order[t]])
  }

  /** Walk the list and copy the hooks out. */
  method Collect(next: array<int>, head: int, sorted: seq<Hook>, ghost order: seq<nat>) returns (run: seq<Hook>)
    requires ListOf(next, head, order) && |order| == |sorted| == next.Length
    ensures |run| == |order| && forall t :: 0 <= t < |order| ==> run[t] == sorted[order[t]]
  {
    run := [];
    var p := head;
    while p != NIL
      invariant |run| <= |order|
      invariant p == if |run| < |order| then order[|run|] else NIL
      invariant forall t :: 0 <= t < |run| ==> run[t] == sorted[order[t]]
      decreases |order| - |run|
    {
      assert |run| < |sorted|; // n < pHooks->nelts
      run := run + [sorted[p]];
      p := next[p];
    }
  }

  /**
    Each item once, every item it has to follow first, and no change at all when the items
    already stand in an order that meets the constraints.
   */
  ghost predicate Serves(items: seq<Hook>, order: seq<nat>) {
    && Permutes(order, |items|)
    && (forall t, k: nat :: 0 <= t < |order| && MustPrecede(items, k, order[t]) ==> k in order[..t])
    && ((forall k, n :: MustPrecede(items, k, n) ==> k < n) ==> order == Upto(|items|))
  }

  lemma {:induction false} OrderServes(rows: Rows, items: seq<Hook>, order: seq<nat>)
    requires States(rows, items) && GoodOrder(rows, order) && |order| == |rows|
    ensures Serves(items, order)
  {
    if forall k, n :: MustPrecede(items, k, n) ==> k < n {
      CrudeOrderKept(rows, order);
    }
  }

  /**
    The hooks in the order they run: the given ones, each once, every named predecessor first.
    `sorted` is what `qsort` made of `hooks`, by the rearrangement `q`.
   */
  method SortHook(hooks: seq<Hook>, sorted: seq<Hook>, ghost q: seq<nat>)
    returns (run: seq<Hook>, ghost order: seq<nat>)
    requires |hooks| > 0 && |sorted| == |hooks| && Permutes(q, |hooks|)
    requires forall i :: 0 <= i < |hooks| ==> sorted[i] == hooks[q[i]]
    requires SortedByOrder(sorted)
    requires forall rows :: WellFormed(rows) && States(rows, sorted) ==> Acyclic(rows)
    ensures |run| == |hooks| && Serves(sorted, order)
    ensures forall t :: 0 <= t < |run| ==> run[t] == hooks[Composed(q, order)[t]] == sorted[order[t]]
  {
    var nPred, pred, next, rows := Prepare(sorted);
    var head;
    head, order := TSort(nPred, pred, next, rows);
    run := Collect(next, head, sorted, order);
    OrderServes(rows, sorted, order);
  }
}
