/** The improvement phase (`optimizeSolution`): sweeps over the empty
    cells, each one a cycle search followed by a pivot, repeated while a
    sweep improved something. */
module Optimizer {
  import opened CostTable
  import opened CycleSearch
  import opened Pivot

  /** Strict row-major order on cells: factory first, then warehouse. */
  predicate RowMajorBefore(p: (int, int), q: (int, int)) {
    p.0 < q.0 || (p.0 == q.0 && p.1 < q.1)
  }

  /** The cells of factory row `i` from warehouse `j` on whose allocation is
      0, in warehouse order. */
  function EmptyInRow(t: Table, i: int, j: int): (r: seq<(int, int)>)
    requires Valid(t) && 0 <= i < |t.factories| && 0 <= j <= |t.warehouses|
    ensures forall k :: 0 <= k < |r| ==> r[k].0 == i && j <= r[k].1 < |t.warehouses| && Alloc(t, i, r[k].1) == 0
    ensures forall q :: j <= q < |t.warehouses| && Alloc(t, i, q) == 0 ==> (i, q) in r
    ensures forall a, b :: 0 <= a < b < |r| ==> RowMajorBefore(r[a], r[b])
    decreases |t.warehouses| - j
  {
    if j == |t.warehouses| then []
    else if Alloc(t, i, j) == 0 then [(i, j)] + EmptyInRow(t, i, j + 1)
    else EmptyInRow(t, i, j + 1)
  }

  /** The start cells of a sweep from factory row `i` on. */
  function EmptyFrom(t: Table, i: int): (r: seq<(int, int)>)
    requires Valid(t) && 0 <= i <= |t.factories|
    ensures forall k :: 0 <= k < |r| ==> i <= r[k].0 && InBounds(t, r[k].0, r[k].1) && Alloc(t, r[k].0, r[k].1) == 0
    ensures forall p, q :: i <= p && InBounds(t, p, q) && Alloc(t, p, q) == 0 ==> (p, q) in r
    ensures forall a, b :: 0 <= a < b < |r| ==> RowMajorBefore(r[a], r[b])
    decreases |t.factories| - i
  {
    if i == |t.factories| then []
    else
      var row := EmptyInRow(t, i, 0);
      var rest := EmptyFrom(t, i + 1);
      assert forall a, b :: 0 <= a < |row| && 0 <= b < |rest| ==> RowMajorBefore(row[a], rest[b]);
      row + rest
  }

  /** The start cells of a sweep, as collected at its beginning: every cell
      with allocation 0, exactly once, in row-major order. */
  function EmptyCells(t: Table): (r: seq<(int, int)>)
    requires Valid(t)
    ensures forall k :: 0 <= k < |r| ==> InBounds(t, r[k].0, r[k].1) && Alloc(t, r[k].0, r[k].1) == 0
    ensures forall p, q :: InBounds(t, p, q) && Alloc(t, p, q) == 0 ==> (p, q) in r
    ensures forall a, b :: 0 <= a < b < |r| ==> RowMajorBefore(r[a], r[b])
  {
    EmptyFrom(t, 0)
  }

  predicate StartsInBounds(t: Table, starts: seq<(int, int)>) {
    forall k :: 0 <= k < |starts| ==> InBounds(t, starts[k].0, starts[k].1)
  }

  /** The inner loop of one sweep, from the given start cells on: search a
      cycle from the start cell on the current table, then `optimize` it.
      `improved` is the `continueOptimizing` flag so far. */
  function SweepFrom(t: Table, starts: seq<(int, int)>, improved: bool): (r: (Table, bool))
    requires Valid(t) && StartsInBounds(t, starts)
    ensures SameShape(t, r.0) && SamePrices(t, r.0)
    ensures improved ==> r.1
    decreases |starts|
  {
    if starts == [] then (t, improved)
    else
      var c := ComputeSolutionSteps(t, starts[0].0, starts[0].1);
      var (better, u) := Optimize(t, c);
      SweepFrom(u, starts[1..], improved || better)
  }

  /** One sweep of `optimizeSolution`, returning the table and whether any
      pivot improved it. */
  function Sweep(t: Table): (r: (Table, bool))
    requires Valid(t)
    ensures SameShape(t, r.0) && SamePrices(t, r.0)
  {
    SweepFrom(t, EmptyCells(t), false)
  }

  /** Every allocation is at least 0. */
  ghost predicate NonNegative(t: Table) {
    Valid(t) && forall i, j :: InBounds(t, i, j) ==> Alloc(t, i, j) >= 0
  }

  /** One search-and-pivot round: it never raises the total cost, lowers it
      whenever it reports an improvement, changes nothing when it does not,
      and keeps allocations non-negative. */
  lemma Round(t: Table, r0: int, c0: int)
    requires Valid(t) && InBounds(t, r0, c0)
    ensures var (better, u) := Optimize(t, ComputeSolutionSteps(t, r0, c0));
      && (better ==> TotalCost(u) < TotalCost(t))
      && (!better ==> u == t)
      && (NonNegative(t) ==> NonNegative(u))
  {
    var c := ComputeSolutionSteps(t, r0, c0);
    if c != [] && SolutionCost(t, c) < 0 {
      ImprovingPivotCells(t, r0, c0, c);
      ImprovingPivotCost(t, r0, c0, c);
    }
  }

  /** A sweep that reports no improvement leaves the table exactly as it
      was; one that reports an improvement lowered the total cost; none
      raises it, and allocations stay non-negative. */
  lemma {:induction false} SweepFromEffect(t: Table, starts: seq<(int, int)>, improved: bool)
    requires Valid(t) && StartsInBounds(t, starts)
    ensures var (u, any) := SweepFrom(t, starts, improved);
      && TotalCost(u) <= TotalCost(t)
      && (any && !improved ==> TotalCost(u) < TotalCost(t))
      && (!any ==> u == t)
      && (NonNegative(t) ==> NonNegative(u))
    decreases |starts|
  {
    if starts != [] {
      var c := ComputeSolutionSteps(t, starts[0].0, starts[0].1);
      var (better, u) := Optimize(t, c);
      Round(t, starts[0].0, starts[0].1);
      SweepFromEffect(u, starts[1..], improved || better);
    }
  }

  /** The same for a whole sweep. */
  lemma SweepEffect(t: Table)
    requires Valid(t)
    ensures var (u, any) := Sweep(t);
      && (any ==> TotalCost(u) < TotalCost(t))
      && (!any ==> u == t)
      && (NonNegative(t) ==> NonNegative(u))
  {
    SweepFromEffect(t, EmptyCells(t), false);
  }

  /** A sweep without improvement returns its input. */
  lemma QuietSweep(t: Table)
    requires Valid(t)
    ensures !Sweep(t).1 ==> Sweep(t) == (t, false)
  {
    SweepFromEffect(t, EmptyCells(t), false);
  }

  /** What the loop needs of a sweep: defined on every well-formed table,
      and returning a table of the same shape with the same prices. */
  ghost predicate KeepsShape(sweep: Table --> (Table, bool)) {
    forall u {:trigger sweep(u)} {:trigger sweep.requires(u)} :: Valid(u) ==> sweep.requires(u) && SameShape(u, sweep(u).0) && SamePrices(u, sweep(u).0)
  }

  /** A sweep that reports no improvement returns its input. */
  ghost predicate QuietIsIdle(sweep: Table --> (Table, bool))
    requires KeepsShape(sweep)
  {
    forall u {:trigger sweep(u)} :: Valid(u) && !sweep(u).1 ==> sweep(u).0 == u
  }

  /** A sweep never raises the total cost, lowers it when it reports an
      improvement, and keeps allocations non-negative. */
  ghost predicate NeverWorse(sweep: Table --> (Table, bool))
    requires KeepsShape(sweep)
  {
    forall u {:trigger sweep(u)} :: Valid(u) ==>
      && TotalCost(sweep(u).0) <= TotalCost(u)
      && (sweep(u).1 ==> TotalCost(sweep(u).0) < TotalCost(u))
      && (NonNegative(u) ==> NonNegative(sweep(u).0))
  }

  /** The `while (continueOptimizing)` loop around a given sweep, run for at
      most `sweeps` sweeps. Returns the table and whether the loop stopped
      on its own (a sweep without any improvement) within that many
      sweeps. */
  function Repeat(sweep: Table --> (Table, bool), t: Table, sweeps: nat): (r: (Table, bool))
    requires Valid(t) && KeepsShape(sweep)
    ensures SameShape(t, r.0) && SamePrices(t, r.0)
    decreases sweeps
  {
    if sweeps == 0 then (t, false)
    else
      var s := sweep(t);
      if s.1 then Repeat(sweep, s.0, sweeps - 1) else (s.0, true)
  }

  /** The loop only stops after a sweep that reported nothing, so when such
      a sweep returns its input a converged result is a fixed point. */
  lemma {:induction false} RepeatConverged(sweep: Table --> (Table, bool), t: Table, sweeps: nat)
    requires Valid(t) && KeepsShape(sweep) && QuietIsIdle(sweep)
    ensures var r := Repeat(sweep, t, sweeps); r.1 ==> sweep(r.0) == (r.0, false)
    decreases sweeps
  {
    if sweeps > 0 && sweep(t).1 {
      RepeatConverged(sweep, sweep(t).0, sweeps - 1);
    }
  }

  /** Along the loop the total cost never rises, and strictly falls if
      anything changed; non-negative allocations stay non-negative. */
  lemma {:induction false} RepeatCost(sweep: Table --> (Table, bool), t: Table, sweeps: nat)
    requires Valid(t) && KeepsShape(sweep) && QuietIsIdle(sweep) && NeverWorse(sweep)
    ensures var u := Repeat(sweep, t, sweeps).0;
      && TotalCost(u) <= TotalCost(t)
      && (u != t ==> TotalCost(u) < TotalCost(t))
      && (NonNegative(t) ==> NonNegative(u))
    decreases sweeps
  {
    if sweeps > 0 {
      var s := sweep(t);
      assert TotalCost(s.0) <= TotalCost(t) && (NonNegative(t) ==> NonNegative(s.0));
      if s.1 {
        assert TotalCost(s.0) < TotalCost(t);
        RepeatCost(sweep, s.0, sweeps - 1);
      } else {
        assert s.0 == t;
      }
    }
  }

  /** The sweep of this model has all three properties. */
  lemma SweepIsWellBehaved()
    ensures KeepsShape(Sweep) && QuietIsIdle(Sweep) && NeverWorse(Sweep)
  {
    forall u | Valid(u)
      ensures !Sweep(u).1 ==> Sweep(u).0 == u
      ensures TotalCost(Sweep(u).0) <= TotalCost(u)
      ensures Sweep(u).1 ==> TotalCost(Sweep(u).0) < TotalCost(u)
      ensures NonNegative(u) ==> NonNegative(Sweep(u).0)
    {
      SweepEffect(u);
    }
  }

  /** `optimizeSolution`, run for at most `sweeps` sweeps. */
  function OptimizeSolution(t: Table, sweeps: nat): (r: (Table, bool))
    requires Valid(t)
    ensures SameShape(t, r.0) && SamePrices(t, r.0)
  {
    SweepIsWellBehaved();
    Repeat(Sweep, t, sweeps)
  }

  /** A converged result is a fixed point of the sweep: one more sweep
      reports no improvement and returns it unchanged. */
  lemma OptimizeSolutionConverged(t: Table, sweeps: nat)
    requires Valid(t)
    ensures var r := OptimizeSolution(t, sweeps); r.1 ==> Sweep(r.0) == (r.0, false)
  {
    SweepIsWellBehaved();
    RepeatConverged(Sweep, t, sweeps);
  }

  /** Over the whole loop the total cost never rises, and strictly falls if
      the table changed; non-negative allocations stay non-negative. */
  lemma OptimizeSolutionCost(t: Table, sweeps: nat)
    requires Valid(t)
    ensures var u := OptimizeSolution(t, sweeps).0;
      && TotalCost(u) <= TotalCost(t)
      && (u != t ==> TotalCost(u) < TotalCost(t))
      && (NonNegative(t) ==> NonNegative(u))
  {
    SweepIsWellBehaved();
    RepeatCost(Sweep, t, sweeps);
  }
}
