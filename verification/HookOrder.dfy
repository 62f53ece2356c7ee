/**
  The meaning of hook ordering (apr-util/hooks/apr_hooks.c), as a machine on values.

  `rows[i]` lists the items that have to run before item i, in the order of the slots of
  `ppPredecessors`. The machine makes the same moves as the search loop of `tsort`, one
  `++n` at a time, so that statements about every run of that loop can be made and proved
  about `Run`. The in-place sort in HookSort is proved to follow this machine.
 */
module HookOrder {
  import opened Distinctness

  type Rows = seq<seq<nat>>

  ghost predicate WellFormed(rows: Rows) {
    forall i :: 0 <= i < |rows| ==> Distinct(rows[i]) && forall k :: k in rows[i] ==> k < |rows|
  }

  // ----- Constraints as a graph

  /** Each element of a chain has to run after the element that follows it. */
  ghost predicate IsChain(rows: Rows, p: seq<nat>) {
    && (forall j :: 0 <= j < |p| ==> p[j] < |rows|)
    && (forall j :: 0 <= j < |p| - 1 ==> p[j + 1] in rows[p[j]])
  }

  ghost predicate Acyclic(rows: Rows) {
    forall p :: IsChain(rows, p) && |p| >= 2 ==> p[0] != p[|p| - 1]
  }

  /** Every item of the order comes after all the items that have to run before it. */
  ghost predicate Respects(rows: Rows, order: seq<nat>) {
    && (forall t :: 0 <= t < |order| ==> order[t] < |rows|)
    && (forall t, k :: 0 <= t < |order| && k in rows[order[t]] ==> k in order[..t])
  }

  ghost predicate IsLowestLeft(order: seq<nat>, low: nat) {
    low !in order && forall j: nat :: j < low ==> j in order
  }

  /** `p` leads from the lowest item not in `order`, through required items only, to `n`. */
  ghost predicate DragPath(rows: Rows, order: seq<nat>, p: seq<nat>, n: nat) {
    && |p| > 0 && p[|p| - 1] == n
    && IsChain(rows, p)
    && IsLowestLeft(order, p[0])
    && (forall j :: 0 <= j < |p| ==> p[j] !in order)
  }

  ghost predicate Dragged(rows: Rows, order: seq<nat>, n: nat) {
    exists p :: DragPath(rows, order, p, n)
  }

  /** Each item was emitted because it is, or has to run before, the lowest item left. */
  ghost predicate LeastDisplaced(rows: Rows, order: seq<nat>) {
    forall t :: 0 <= t < |order| ==> Dragged(rows, order[..t], order[t])
  }

  // ----- The machine

  /** `NULL` slots are those of items already emitted: the number of slots still set. */
  function Left(row: seq<nat>, order: seq<nat>): nat {
    if row == [] then 0
    else Left(row[..|row| - 1], order) + if row[|row| - 1] in order then 0 else 1
  }

  /** The first slot still set, or |row| when every slot is NULL. */
  function FirstLeft(row: seq<nat>, order: seq<nat>): (k: nat)
    ensures k <= |row|
    ensures k < |row| ==> row[k] !in order
    ensures forall j :: 0 <= j < k ==> row[j] in order
  {
    if row == [] then 0
    else if row[0] !in order then 0
    else 1 + FirstLeft(row[1..], order)
  }

  /**
    `order` holds the items linked so far, `n` is the index the search looks at, `path`
    the items it has jumped through since it found the first unlinked one.
    `LoopFound` is the assertion "we have a loop".
   */
  datatype Config =
    | Searching(order: seq<nat>, n: nat, path: seq<nat>)
    | Sorted(order: seq<nat>)
    | LoopFound

  function Step(rows: Rows, c: Config): Config {
    match c
    case Sorted(_) => c
    case LoopFound => c
    case Searching(order, n, path) =>
      if |order| >= |rows| then Sorted(order)
      else if n >= |rows| then LoopFound
      else if n in order then Searching(order, n + 1, path)
      else
        var k := FirstLeft(rows[n], order);
        var path' := if path == [] then [n] else path;
        if k == |rows[n]| then Searching(order + [n], 0, [])
        else Searching(order, rows[n][k], path' + [rows[n][k]])
  }

  function Run(rows: Rows, steps: nat): Config {
    if steps == 0 then Searching([], 0, []) else Step(rows, Run(rows, steps - 1))
  }

  // ----- What every configuration of every run satisfies

  ghost predicate GoodOrder(rows: Rows, order: seq<nat>) {
    Distinct(order) && Respects(rows, order) && LeastDisplaced(rows, order)
  }

  ghost predicate Inv(rows: Rows, c: Config) {
    match c
    case LoopFound => false
    case Sorted(order) => GoodOrder(rows, order) && |order| == |rows|
    case Searching(order, n, path) =>
      && GoodOrder(rows, order)
      && |order| <= |rows|
      && (path == [] ==> forall j: nat :: j < n ==> j in order)
      && (path != [] ==> DragPath(rows, order, path, n))
  }

  /** While items are left, the search cannot run off the end: the loop assertion is never reached. */
  lemma {:induction false} LeftBelow(rows: Rows, order: seq<nat>, n: nat)
    requires GoodOrder(rows, order) && |order| < |rows|
    requires forall j: nat :: j < n ==> j in order
    ensures n < |rows|
  {
    if n >= |rows| {
      var s := Upto(|rows|);
      assert Distinct(s);
      var elems := set x | x in order;
      DistinctCard(order, elems);
      var all := set x | x in s;
      DistinctCard(s, all);
      assert all <= elems;
      SubsetCard(all, elems);
    }
  }

  lemma {:induction false} EmitKeepsGood(rows: Rows, order: seq<nat>, n: nat, path: seq<nat>)
    requires WellFormed(rows) && GoodOrder(rows, order)
    requires n < |rows| && n !in order
    requires FirstLeft(rows[n], order) == |rows[n]|
    requires DragPath(rows, order, path, n)
    ensures GoodOrder(rows, order + [n])
  {
    var order' := order + [n];
    forall t, k | 0 <= t < |order'| && k in rows[order'[t]]
      ensures k in order'[..t]
    {
      assert order'[..t] == order[..t];
      if t == |order| { assert order[..t] == order; }
    }
    forall t | 0 <= t < |order'|
      ensures Dragged(rows, order'[..t], order'[t])
    {
      assert order'[..t] == order[..t];
      if t == |order| {
        assert order[..t] == order;
        assert DragPath(rows, order'[..t], path, order'[t]);
      } else {
        assert Dragged(rows, order[..t], order[t]);
      }
    }
  }

  lemma {:induction false} StepKeepsInv(rows: Rows, c: Config)
    requires WellFormed(rows) && Inv(rows, c)
    ensures Inv(rows, Step(rows, c))
  {
    if c.Searching? && |c.order| < |rows| {
      var Searching(order, n, path) := c;
      if path == [] {
        LeftBelow(rows, order, n);
      }
      if n !in order {
        var k := FirstLeft(rows[n], order);
        var path' := if path == [] then [n] else path;
        assert DragPath(rows, order, path', n);
        if k == |rows[n]| {
          EmitKeepsGood(rows, order, n, path');
          Pigeonhole(order + [n], |rows|);
        } else {
          assert rows[n][k] in rows[n];
          assert DragPath(rows, order, path' + [rows[n][k]], rows[n][k]);
        }
      }
    }
  }

  /** Safety of every run, cyclic constraints included. */
  lemma {:induction false} RunKeepsInv(rows: Rows, steps: nat)
    requires WellFormed(rows)
    ensures Inv(rows, Run(rows, steps))
  {
    if steps > 0 {
      RunKeepsInv(rows, steps - 1);
      StepKeepsInv(rows, Run(rows, steps - 1));
    }
  }

  // ----- Termination, exactly for acyclic constraints

  lemma {:induction false} ChainPart(rows: Rows, p: seq<nat>, i: nat, j: nat)
    requires IsChain(rows, p) && i < j <= |p|
    ensures IsChain(rows, p[i..j])
  {
  }

  lemma {:induction false} ChainDistinct(rows: Rows, p: seq<nat>)
    requires Acyclic(rows) && IsChain(rows, p)
    ensures Distinct(p)
  {
    forall i, j | 0 <= i < j < |p| ensures p[i] != p[j] {
      ChainPart(rows, p, i, j + 1);
      assert p[i..j + 1][0] == p[i] && p[i..j + 1][|p[i..j + 1]| - 1] == p[j];
    }
  }

  /** One step links an item, or lengthens the jump path, or moves the scan on. */
  ghost predicate Descends(size: nat, c: Config, c': Config) {
    && c.Searching? && c'.Searching?
    && |c.order| <= |c'.order| <= size
    && |c'.path| <= size
    && (|c'.order| == |c.order| ==> |c'.path| >= |c.path|)
    && (|c'.order| == |c.order| && |c'.path| == |c.path| ==> c.n < c'.n <= size)
  }

  lemma {:induction false} PathFits(rows: Rows, c: Config)
    requires Acyclic(rows) && c.Searching? && Inv(rows, c)
    ensures |c.order| <= |rows| && |c.path| <= |rows|
    ensures c.path == [] && c.n > 0 ==> c.n <= |rows|
  {
    if c.path != [] {
      ChainDistinct(rows, c.path);
      Pigeonhole(c.path, |rows|);
    } else if c.n > 0 {
      assert c.n - 1 in c.order;
    }
  }

  lemma {:induction false} StepDescends(rows: Rows, steps: nat)
    requires WellFormed(rows) && Acyclic(rows)
    requires Run(rows, steps).Searching?
    ensures Run(rows, steps + 1).Sorted? || Descends(|rows|, Run(rows, steps), Run(rows, steps + 1))
  {
    RunKeepsInv(rows, steps);
    var c := Run(rows, steps);
    StepKeepsInv(rows, c);
    if |c.order| < |rows| {
      PathFits(rows, Step(rows, c));
    }
  }

  lemma {:induction false} SearchEnds(rows: Rows, steps: nat, c: Config) returns (total: nat)
    requires WellFormed(rows) && Acyclic(rows)
    requires c.Searching? && c == Run(rows, steps)
    ensures total > steps && Run(rows, total).Sorted?
    decreases |rows| - |c.order|, |rows| - |c.path|, |rows| - c.n
  {
    var c' := Run(rows, steps + 1);
    StepDescends(rows, steps);
    if c'.Sorted? {
      total := steps + 1;
    } else {
      total := SearchEnds(rows, steps + 1, c');
    }
  }

  /** Positions strictly decrease along a chain, so an order that respects the constraints excludes cycles. */
  lemma {:induction false} ChainDescends(rows: Rows, order: seq<nat>, p: seq<nat>, t: nat) returns (u: nat)
    requires Respects(rows, order) && IsChain(rows, p) && |p| >= 2
    requires t < |order| && order[t] == p[0]
    ensures u < t && order[u] == p[|p| - 1]
    decreases |p|
  {
    assert p[1] in rows[order[t]];
    var v :| 0 <= v < t && order[v] == p[1];
    if |p| == 2 {
      u := v;
    } else {
      ChainPart(rows, p, 1, |p|);
      u := ChainDescends(rows, order, p[1..], v);
    }
  }

  lemma {:induction false} OrderExcludesCycles(rows: Rows, order: seq<nat>)
    requires Distinct(order) && Respects(rows, order) && |order| == |rows|
    ensures Acyclic(rows)
  {
    forall p | IsChain(rows, p) && |p| >= 2 ensures p[0] != p[|p| - 1] {
      Pigeonhole(order, |rows|);
      assert p[0] in order;
      var t :| 0 <= t < |order| && order[t] == p[0];
      var u := ChainDescends(rows, order, p, t);
    }
  }

  /**
    The sort ends exactly when the constraints are acyclic. On a cycle it neither ends nor
    reaches the assertion meant to report the loop: it searches for ever.
   */
  lemma {:induction false} SortsIffAcyclic(rows: Rows)
    requires WellFormed(rows)
    ensures Acyclic(rows) <==> exists steps :: Run(rows, steps).Sorted?
    ensures !Acyclic(rows) ==> forall steps :: Run(rows, steps).Searching?
    ensures forall steps :: !Run(rows, steps).LoopFound?
  {
    forall steps: nat ensures Inv(rows, Run(rows, steps)) {
      RunKeepsInv(rows, steps);
    }
    if Acyclic(rows) {
      var total := SearchEnds(rows, 0, Run(rows, 0));
    }
    forall steps: nat | Run(rows, steps).Sorted? ensures Acyclic(rows) {
      assert Inv(rows, Run(rows, steps));
      OrderExcludesCycles(rows, Run(rows, steps).order);
    }
  }

  /** Two items that each have to run before the other: the sort searches for ever. */
  lemma {:induction false} CycleSearches(steps: nat)
    ensures Run([[1], [0]], steps).Searching?
  {
    var rows: Rows := [[1], [0]];
    var p: seq<nat> := [0, 1, 0];
    assert rows[0] == [1] && rows[1] == [0];
    assert IsChain(rows, p) && p[0] == p[|p| - 1];
    SortsIffAcyclic(rows);
  }

  lemma {:induction false} SortedStays(rows: Rows, a: nat, b: nat)
    requires a <= b && Run(rows, a).Sorted?
    ensures Run(rows, b) == Run(rows, a)
    decreases b - a
  {
    if a < b {
      SortedStays(rows, a, b - 1);
    }
  }

  /** What the sort relies on while it searches: it is not at the end, nor past the last item. */
  lemma {:induction false} SearchGoesOn(rows: Rows, steps: nat, total: nat)
    requires WellFormed(rows)
    requires Run(rows, steps).Searching? && |Run(rows, steps).order| < |rows|
    requires Run(rows, total).Sorted?
    ensures steps < total && Run(rows, steps).n < |rows|
  {
    RunKeepsInv(rows, steps);
    if total <= steps {
      SortedStays(rows, total, steps);
    }
    var c := Run(rows, steps);
    if c.path == [] {
      LeftBelow(rows, c.order, c.n);
    }
  }

  lemma {:induction false} Finished(rows: Rows, steps: nat)
    requires WellFormed(rows)
    requires Run(rows, steps).Searching? && |Run(rows, steps).order| == |rows|
    ensures Run(rows, steps + 1) == Sorted(Run(rows, steps).order)
    ensures GoodOrder(rows, Run(rows, steps).order)
  {
    RunKeepsInv(rows, steps);
  }

  // ----- Least displacement

  lemma {:induction false} ChainDown(rows: Rows, p: seq<nat>)
    requires IsChain(rows, p) && |p| > 0
    requires forall i, k :: 0 <= i < |rows| && k in rows[i] ==> k < i
    ensures p[|p| - 1] <= p[0]
  {
    if |p| > 1 {
      ChainPart(rows, p, 0, |p| - 1);
      ChainDown(rows, p[..|p| - 1]);
    }
  }

  lemma {:induction false} LowestIsNext(before: seq<nat>, low: nat)
    requires before == Upto(|before|) && IsLowestLeft(before, low)
    ensures low == |before|
  {
    var next := |before|;
    assert next !in before;
    forall j: nat | j < next ensures j in before {
      assert before[j] == j;
    }
  }

  /** When the order by `nOrder` already satisfies every constraint, the sort does not change it. */
  lemma {:induction false} CrudeOrderKept(rows: Rows, order: seq<nat>)
    requires LeastDisplaced(rows, order)
    requires forall i, k :: 0 <= i < |rows| && k in rows[i] ==> k < i
    ensures order == Upto(|order|)
  {
    if order != [] {
      var last := |order| - 1;
      var before := order[..last];
      forall t | 0 <= t < |before| ensures Dragged(rows, before[..t], before[t]) {
        assert before[..t] == order[..t];
        assert Dragged(rows, order[..t], order[t]);
      }
      CrudeOrderKept(rows, before);
      assert Dragged(rows, order[..last], order[last]);
      var p :| DragPath(rows, before, p, order[last]);
      ChainDown(rows, p);
      LowestIsNext(before, p[0]);
      assert forall j :: 0 <= j < last ==> before[j] == j && before[j] in before;
      assert order[last] == last;
      assert order == before + [order[last]];
    }
  }
}
