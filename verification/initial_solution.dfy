/** The minimum-cost-cell construction of the first shipment plan
    (`minimumCellCost` and `nextMinimumCell`). */
module InitialSolution {
  import opened Results
  import opened CostTable

  /** A cell the builder may pick: its factory still has supply to ship and
      its warehouse still has demand to meet. */
  predicate Eligible(t: Table, i: int, j: int)
    requires Valid(t) && InBounds(t, i, j)
  {
    RemainingSupply(t, i) > 0 && RemainingDemand(t, j) > 0
  }

  /** Cell (a, b) is scanned before cell (i, j): factories outer, warehouses inner. */
  predicate Before(a: int, b: int, i: int, j: int) {
    a < i || (a == i && b < j)
  }

  /** `best` is the scan's choice once every cell before (i, j) has been
      looked at: none if no such cell is eligible, otherwise the eligible
      cell of least price, and among those of least price the first. */
  ghost predicate ChoiceUpTo(t: Table, best: Option<(int, int)>, i: int, j: int)
    requires Valid(t)
  {
    match best
    case None =>
      forall a, b :: InBounds(t, a, b) && Before(a, b, i, j) ==> !Eligible(t, a, b)
    case Some(c) =>
      && InBounds(t, c.0, c.1) && Eligible(t, c.0, c.1) && Before(c.0, c.1, i, j)
      && forall a, b :: InBounds(t, a, b) && Before(a, b, i, j) && Eligible(t, a, b) ==>
           && Price(t, c.0, c.1) <= Price(t, a, b)
           && (Before(a, b, c.0, c.1) ==> Price(t, c.0, c.1) < Price(t, a, b))
  }

  /** The inner loop of `nextMinimumCell` over the warehouses of factory `i`,
      from warehouse `j` on. The comparison is strict, so the first cell of
      least price is kept. */
  function ScanWarehouses(t: Table, i: int, j: int, best: Option<(int, int)>): (r: Option<(int, int)>)
    requires Valid(t) && 0 <= i < |t.factories| && 0 <= j <= |t.warehouses|
    requires RemainingSupply(t, i) > 0
    requires ChoiceUpTo(t, best, i, j)
    ensures ChoiceUpTo(t, r, i + 1, 0)
    decreases |t.warehouses| - j
  {
    if j == |t.warehouses| then best
    else if RemainingDemand(t, j) <= 0 then ScanWarehouses(t, i, j + 1, best)
    else if best.None? || Price(t, i, j) < Price(t, best.value.0, best.value.1) then
      ScanWarehouses(t, i, j + 1, Some((i, j)))
    else ScanWarehouses(t, i, j + 1, best)
  }

  /** The outer loop of `nextMinimumCell` over the factories from `i` on;
      a factory without remaining supply is skipped. */
  function ScanFactories(t: Table, i: int, best: Option<(int, int)>): (r: Option<(int, int)>)
    requires Valid(t) && 0 <= i <= |t.factories|
    requires ChoiceUpTo(t, best, i, 0)
    ensures ChoiceUpTo(t, r, |t.factories|, 0)
    decreases |t.factories| - i
  {
    if i == |t.factories| then best
    else if RemainingSupply(t, i) <= 0 then ScanFactories(t, i + 1, best)
    else ScanFactories(t, i + 1, ScanWarehouses(t, i, 0, best))
  }

  /** The cell `nextMinimumCell` picks: among the cells whose factory has
      remaining supply and whose warehouse has remaining demand, the one of
      least price, ties going to the first in row-major order. */
  function FindMinimumCell(t: Table): (r: Option<(int, int)>)
    requires Valid(t)
    ensures r.None? <==> forall a, b :: InBounds(t, a, b) ==> !Eligible(t, a, b)
    ensures r.Some? ==> InBounds(t, r.value.0, r.value.1) && Eligible(t, r.value.0, r.value.1)
    ensures r.Some? ==> forall a, b :: InBounds(t, a, b) && Eligible(t, a, b) ==>
      && Price(t, r.value.0, r.value.1) <= Price(t, a, b)
      && (Before(a, b, r.value.0, r.value.1) ==> Price(t, r.value.0, r.value.1) < Price(t, a, b))
  {
    ScanFactories(t, 0, None)
  }

  function Min(a: int, b: int): int {
    if a <= b then a else b
  }

  /** `nextMinimumCell`: SETS the chosen cell's allocation to the smaller of
      its factory's remaining supply and its warehouse's remaining demand.
      With no eligible cell the chosen cell stays null and the source
      dereferences it, which is the `NullPointer` failure here. */
  function NextMinimumCell(t: Table): (r: Result<Table>)
    requires Valid(t)
    ensures r.Err? <==> forall a, b :: InBounds(t, a, b) ==> !Eligible(t, a, b)
    ensures r.Err? ==> r.failure == NullPointer
    ensures r.Ok? ==> var (i, j) := FindMinimumCell(t).value;
      && SameShape(t, r.value) && SamePrices(t, r.value)
      && Alloc(r.value, i, j) == Min(RemainingSupply(t, i), RemainingDemand(t, j))
      && forall a, b :: InBounds(t, a, b) && (a, b) != (i, j) ==> Alloc(r.value, a, b) == Alloc(t, a, b)
  {
    match FindMinimumCell(t)
    case None => Err(NullPointer)
    case Some((i, j)) => Ok(SetAlloc(t, i, j, Min(RemainingSupply(t, i), RemainingDemand(t, j))))
  }

  // ---------------------------------------------------------------------------
  // Invariants of the greedy loop
  // ---------------------------------------------------------------------------

  /** Every cell that ships something lies in an exhausted factory row or a
      satisfied warehouse column. */
  ghost predicate Settled(t: Table)
    requires Valid(t)
  {
    forall i, j :: InBounds(t, i, j) && Alloc(t, i, j) != 0 ==>
      RemainingSupply(t, i) <= 0 || RemainingDemand(t, j) <= 0
  }

  ghost predicate AllEmpty(t: Table)
    requires Valid(t)
  {
    forall i, j :: InBounds(t, i, j) ==> Alloc(t, i, j) == 0
  }

  /** No allocation and no remaining capacity is negative. */
  ghost predicate NonNegativeState(t: Table)
    requires Valid(t)
  {
    && (forall i, j :: InBounds(t, i, j) ==> Alloc(t, i, j) >= 0)
    && (forall i :: 0 <= i < |t.factories| ==> RemainingSupply(t, i) >= 0)
    && (forall j :: 0 <= j < |t.warehouses| ==> RemainingDemand(t, j) >= 0)
  }

  predicate NonNegativeCapacities(t: Table) {
    && (forall i :: 0 <= i < |t.factories| ==> t.factories[i].production >= 0)
    && (forall j :: 0 <= j < |t.warehouses| ==> t.warehouses[j].demand >= 0)
  }

  function TotalProduction(fs: seq<Factory>): int {
    if fs == [] then 0 else fs[0].production + TotalProduction(fs[1..])
  }

  function TotalDemand(ws: seq<Warehouse>): int {
    if ws == [] then 0 else ws[0].demand + TotalDemand(ws[1..])
  }

  /** A balanced instance: total production equals total demand. */
  predicate Balanced(t: Table) {
    TotalProduction(t.factories) == TotalDemand(t.warehouses)
  }

  /** Remaining supply summed over the factories from `k` on. */
  function SupplyLeftFrom(t: Table, k: int): int
    requires Valid(t) && 0 <= k <= |t.factories|
    decreases |t.factories| - k
  {
    if k == |t.factories| then 0 else RemainingSupply(t, k) + SupplyLeftFrom(t, k + 1)
  }

  /** Remaining demand summed over the warehouses from `k` on. */
  function DemandLeftFrom(t: Table, k: int): int
    requires Valid(t) && 0 <= k <= |t.warehouses|
    decreases |t.warehouses| - k
  {
    if k == |t.warehouses| then 0 else RemainingDemand(t, k) + DemandLeftFrom(t, k + 1)
  }

  datatype Line = FactoryLine(i: int) | WarehouseLine(j: int)

  /** The factories with supply left and the warehouses with demand left. */
  function OpenLines(t: Table): set<Line>
    requires Valid(t)
  {
    (set i | 0 <= i < |t.factories| && RemainingSupply(t, i) > 0 :: FactoryLine(i))
    + (set j | 0 <= j < |t.warehouses| && RemainingDemand(t, j) > 0 :: WarehouseLine(j))
  }

  lemma {:induction false} RowSumEmpty(row: seq<Cell>)
    requires forall k :: 0 <= k < |row| ==> row[k].alloc == 0
    ensures RowSum(row) == 0
  {
    if row != [] {
      RowSumEmpty(row[1..]);
    }
  }

  lemma {:induction false} ColSumEmpty(cells: seq<seq<Cell>>, j: int)
    requires HasColumn(cells, j)
    requires forall k :: 0 <= k < |cells| ==> cells[k][j].alloc == 0
    ensures ColSum(cells, j) == 0
  {
    if cells != [] {
      ColSumEmpty(cells[1..], j);
    }
  }

  /** On an empty plan every remaining capacity is the full capacity. */
  lemma EmptyPlanCapacities(t: Table)
    requires Valid(t) && AllEmpty(t)
    ensures forall i :: 0 <= i < |t.factories| ==> RemainingSupply(t, i) == t.factories[i].production
    ensures forall j :: 0 <= j < |t.warehouses| ==> RemainingDemand(t, j) == t.warehouses[j].demand
  {
    forall i | 0 <= i < |t.factories|
      ensures RemainingSupply(t, i) == t.factories[i].production
    {
      forall k | 0 <= k < |t.cells[i]|
        ensures t.cells[i][k].alloc == 0
      {
        assert Alloc(t, i, k) == 0;
      }
      RowSumEmpty(t.cells[i]);
    }
    forall j | 0 <= j < |t.warehouses|
      ensures RemainingDemand(t, j) == t.warehouses[j].demand
    {
      forall k | 0 <= k < |t.cells|
        ensures t.cells[k][j].alloc == 0
      {
        assert Alloc(t, k, j) == 0;
      }
      ColSumEmpty(t.cells, j);
    }
  }

  /** On an empty plan the summed remaining capacities are the totals. */
  lemma {:induction false} EmptyPlanLeft(t: Table, k: int, l: int)
    requires Valid(t) && AllEmpty(t) && 0 <= k <= |t.factories| && 0 <= l <= |t.warehouses|
    ensures SupplyLeftFrom(t, k) == TotalProduction(t.factories[k..])
    ensures DemandLeftFrom(t, l) == TotalDemand(t.warehouses[l..])
    decreases |t.factories| - k + |t.warehouses| - l
  {
    EmptyPlanCapacities(t);
    if k < |t.factories| {
      EmptyPlanLeft(t, k + 1, l);
      assert t.factories[k..][1..] == t.factories[k + 1..];
    }
    if l < |t.warehouses| {
      EmptyPlanLeft(t, k, l + 1);
      assert t.warehouses[l..][1..] == t.warehouses[l + 1..];
    }
  }

  /** A sum of non-negative remaining capacities is positive exactly when
      one of them is. */
  lemma {:induction false} SupplyLeftPositive(t: Table, k: int)
    requires Valid(t) && 0 <= k <= |t.factories|
    requires forall i :: k <= i < |t.factories| ==> RemainingSupply(t, i) >= 0
    ensures SupplyLeftFrom(t, k) >= 0
    ensures SupplyLeftFrom(t, k) > 0 <==> exists i :: k <= i < |t.factories| && RemainingSupply(t, i) > 0
    decreases |t.factories| - k
  {
    if k < |t.factories| {
      SupplyLeftPositive(t, k + 1);
    }
  }

  lemma {:induction false} DemandLeftPositive(t: Table, k: int)
    requires Valid(t) && 0 <= k <= |t.warehouses|
    requires forall j :: k <= j < |t.warehouses| ==> RemainingDemand(t, j) >= 0
    ensures DemandLeftFrom(t, k) >= 0
    ensures DemandLeftFrom(t, k) > 0 <==> exists j :: k <= j < |t.warehouses| && RemainingDemand(t, j) > 0
    decreases |t.warehouses| - k
  {
    if k < |t.warehouses| {
      DemandLeftPositive(t, k + 1);
    }
  }

  /** Setting cell (i, j) lowers the summed remaining supply and the summed
      remaining demand by the same amount. */
  lemma {:induction false} LeftAfterSet(t: Table, i: int, j: int, a: int, k: int, l: int)
    requires Valid(t) && InBounds(t, i, j)
    requires 0 <= k <= |t.factories| && 0 <= l <= |t.warehouses|
    ensures var u := SetAlloc(t, i, j, a); var d := a - Alloc(t, i, j);
      && SupplyLeftFrom(u, k) == SupplyLeftFrom(t, k) - (if k <= i then d else 0)
      && DemandLeftFrom(u, l) == DemandLeftFrom(t, l) - (if l <= j then d else 0)
    decreases |t.factories| - k + |t.warehouses| - l
  {
    SetAllocEffect(t, i, j, a);
    if k < |t.factories| {
      LeftAfterSet(t, i, j, a, k + 1, l);
    }
    if l < |t.warehouses| {
      LeftAfterSet(t, i, j, a, k, l + 1);
    }
  }

  /** One step of the greedy loop on a settled plan: the chosen cell was
      empty (so setting it is the same as adding to it), its factory or its
      warehouse is closed afterwards, no capacity goes negative, the plan
      stays settled, the set of open lines strictly shrinks, and the summed
      remaining supply and demand drop by the same amount. */
  lemma GreedyStep(t: Table)
    requires Valid(t) && Settled(t) && FindMinimumCell(t).Some?
    ensures var (i, j) := FindMinimumCell(t).value; var u := NextMinimumCell(t).value;
      && Alloc(t, i, j) == 0
      && Alloc(u, i, j) > 0
      && RemainingSupply(u, i) >= 0 && RemainingDemand(u, j) >= 0
      && (RemainingSupply(u, i) == 0 || RemainingDemand(u, j) == 0)
      && Settled(u)
      && OpenLines(u) < OpenLines(t)
      && SupplyLeftFrom(u, 0) - DemandLeftFrom(u, 0) == SupplyLeftFrom(t, 0) - DemandLeftFrom(t, 0)
      && (NonNegativeState(t) ==> NonNegativeState(u))
  {
    var (i, j) := FindMinimumCell(t).value;
    var a := Min(RemainingSupply(t, i), RemainingDemand(t, j));
    assert NextMinimumCell(t).value == SetAlloc(t, i, j, a);
    GreedyCell(t, i, j, a);
    GreedyLines(t, i, j, a);
    LeftAfterSet(t, i, j, a, 0, 0);
  }

  /** The cell picked from a settled plan: it was empty, it ships a
      positive quantity afterwards, and it closes its factory or its
      warehouse without overshooting either; the plan stays settled and
      non-negative. */
  lemma GreedyCell(t: Table, i: int, j: int, a: int)
    requires Valid(t) && InBounds(t, i, j) && Settled(t) && Eligible(t, i, j)
    requires a == Min(RemainingSupply(t, i), RemainingDemand(t, j))
    ensures var u := SetAlloc(t, i, j, a);
      && Alloc(t, i, j) == 0
      && Alloc(u, i, j) > 0
      && RemainingSupply(u, i) >= 0 && RemainingDemand(u, j) >= 0
      && (RemainingSupply(u, i) == 0 || RemainingDemand(u, j) == 0)
      && Settled(u)
      && (NonNegativeState(t) ==> NonNegativeState(u))
  {
    SetAllocEffect(t, i, j, a);
  }

  /** The same step closes at least one open line and opens none. */
  lemma GreedyLines(t: Table, i: int, j: int, a: int)
    requires Valid(t) && InBounds(t, i, j) && Settled(t) && Eligible(t, i, j)
    requires a == Min(RemainingSupply(t, i), RemainingDemand(t, j))
    ensures OpenLines(SetAlloc(t, i, j, a)) < OpenLines(t)
  {
    var u := SetAlloc(t, i, j, a);
    SetAllocEffect(t, i, j, a);
    assert Alloc(t, i, j) == 0;
    assert OpenLines(u) <= OpenLines(t);
    if RemainingSupply(u, i) == 0 {
      assert FactoryLine(i) in OpenLines(t) - OpenLines(u);
    } else {
      assert WarehouseLine(j) in OpenLines(t) - OpenLines(u);
    }
  }

  /** `minimumCellCost`: repeats `nextMinimumCell` until every warehouse's
      demand is met. Started on an empty plan it always terminates, because
      every step closes a factory or a warehouse. With non-negative
      capacities it fails (the null dereference) exactly when production
      falls short of demand; otherwise it meets every demand, and on a
      balanced instance it also ships every factory's whole production. */
  method MinimumCellCost(t: Table) returns (r: Result<Table>)
    requires Valid(t) && AllEmpty(t)
    ensures r.Err? ==> r.failure == NullPointer
    ensures r.Ok? ==> SameShape(t, r.value) && SamePrices(t, r.value)
    ensures r.Ok? ==> IsDemandMet(r.value) && Settled(r.value)
    ensures NonNegativeCapacities(t) ==>
      (r.Ok? <==> TotalProduction(t.factories) >= TotalDemand(t.warehouses))
    ensures NonNegativeCapacities(t) && r.Ok? ==>
      && NonNegativeState(r.value)
      && (forall j :: 0 <= j < |t.warehouses| ==> RemainingDemand(r.value, j) == 0)
    ensures NonNegativeCapacities(t) && Balanced(t) && r.Ok? ==>
      forall i :: 0 <= i < |t.factories| ==> RemainingSupply(r.value, i) == 0
  {
    EmptyPlanLeft(t, 0, 0);
    EmptyPlanCapacities(t);
    var cur := t;
    while !IsDemandMet(cur)
      invariant SameShape(t, cur) && SamePrices(t, cur) && Settled(cur)
      invariant SupplyLeftFrom(cur, 0) - DemandLeftFrom(cur, 0)
             == TotalProduction(t.factories) - TotalDemand(t.warehouses)
      invariant NonNegativeCapacities(t) ==> NonNegativeState(cur)
      decreases OpenLines(cur)
    {
      var next := NextMinimumCell(cur);
      if next.Err? {
        if NonNegativeCapacities(t) {
          ShortSupply(cur);
        }
        return next;
      }
      GreedyStep(cur);
      cur := next.value;
    }
    if NonNegativeCapacities(t) {
      DemandLeftPositive(cur, 0);
      SupplyLeftPositive(cur, 0);
    }
    return Ok(cur);
  }

  /** When no cell is eligible although some warehouse still has demand,
      the non-negative remaining supply is all gone while demand is not:
      production fell short of demand. */
  lemma ShortSupply(t: Table)
    requires Valid(t) && NonNegativeState(t)
    requires forall a, b :: InBounds(t, a, b) ==> !Eligible(t, a, b)
    ensures IsDemandMet(t) || SupplyLeftFrom(t, 0) < DemandLeftFrom(t, 0)
  {
    SupplyLeftPositive(t, 0);
    DemandLeftPositive(t, 0);
    if !IsDemandMet(t) {
      var j :| 0 <= j < |t.warehouses| && RemainingDemand(t, j) > 0;
      forall i | 0 <= i < |t.factories|
        ensures RemainingSupply(t, i) <= 0
      {
        assert !Eligible(t, i, j);
      }
    }
  }
}
