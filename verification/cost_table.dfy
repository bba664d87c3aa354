/** The cost table of a transportation problem: factories are the rows,
    warehouses the columns, and every (factory, warehouse) pair owns one
    cell holding a unit price and the quantity currently shipped on that
    pair. The table is indexed by position, row-major. */
module CostTable {
  import opened Results

  datatype Factory = Factory(name: string, production: int)

  datatype Warehouse = Warehouse(name: string, demand: int)

  /** `alloc` is the quantity currently shipped on this pair (the source
      calls it the cell's current supply). */
  datatype Cell = Cell(price: int, alloc: int)

  datatype Table = Table(factories: seq<Factory>, warehouses: seq<Warehouse>, cells: seq<seq<Cell>>)

  /** Exactly one cell per (factory, warehouse) pair. */
  predicate Valid(t: Table) {
    && |t.cells| == |t.factories|
    && forall i :: 0 <= i < |t.cells| ==> |t.cells[i]| == |t.warehouses|
  }

  predicate InBounds(t: Table, i: int, j: int) {
    0 <= i < |t.factories| && 0 <= j < |t.warehouses|
  }

  function Alloc(t: Table, i: int, j: int): int
    requires Valid(t) && InBounds(t, i, j)
  {
    t.cells[i][j].alloc
  }

  function Price(t: Table, i: int, j: int): int
    requires Valid(t) && InBounds(t, i, j)
  {
    t.cells[i][j].price
  }

  /** The set of all cell positions of the table. */
  function AllCells(t: Table): set<(int, int)> {
    set i, j | 0 <= i < |t.factories| && 0 <= j < |t.warehouses| :: (i, j)
  }

  /** Both tables are well formed over the same factories and warehouses. */
  predicate SameShape(t: Table, u: Table) {
    Valid(t) && Valid(u) && t.factories == u.factories && t.warehouses == u.warehouses
  }

  ghost predicate SamePrices(t: Table, u: Table)
    requires SameShape(t, u)
  {
    forall i, j :: InBounds(t, i, j) ==> Price(u, i, j) == Price(t, i, j)
  }

  ghost predicate SameAllocs(t: Table, u: Table)
    requires SameShape(t, u)
  {
    forall i, j :: InBounds(t, i, j) ==> Alloc(u, i, j) == Alloc(t, i, j)
  }

  /** The constructor: one fresh cell, price 0 and nothing shipped, per pair. */
  function NewTable(factories: seq<Factory>, warehouses: seq<Warehouse>): (t: Table)
    ensures Valid(t) && t.factories == factories && t.warehouses == warehouses
    ensures forall i, j :: InBounds(t, i, j) ==> Price(t, i, j) == 0 && Alloc(t, i, j) == 0
  {
    Table(factories, warehouses, seq(|factories|, _ => seq(|warehouses|, _ => Cell(0, 0))))
  }

  /** Overwrites the allocation of one cell; every other cell and every
      price is left as it was. */
  function SetAlloc(t: Table, i: int, j: int, a: int): (r: Table)
    requires Valid(t) && InBounds(t, i, j)
    ensures SameShape(t, r) && SamePrices(t, r)
    ensures Alloc(r, i, j) == a
    ensures forall p, q :: InBounds(t, p, q) && (p, q) != (i, j) ==> Alloc(r, p, q) == Alloc(t, p, q)
  {
    t.(cells := t.cells[i := t.cells[i][j := t.cells[i][j].(alloc := a)]])
  }

  /** Overwrites the price of one cell (`setCellCost`). */
  function SetPrice(t: Table, i: int, j: int, p: int): (r: Table)
    requires Valid(t) && InBounds(t, i, j)
    ensures SameShape(t, r) && SameAllocs(t, r)
    ensures Price(r, i, j) == p
    ensures forall a, b :: InBounds(t, a, b) && (a, b) != (i, j) ==> Price(r, a, b) == Price(t, a, b)
  {
    t.(cells := t.cells[i := t.cells[i][j := t.cells[i][j].(price := p)]])
  }

  /** `setCellCost` by index: the factory and warehouse array lookups fail
      on an index out of range; otherwise the cell's price is overwritten. */
  function SetCellCost(t: Table, i: int, j: int, cost: int): (r: Result<Table>)
    requires Valid(t)
    ensures r.Ok? <==> InBounds(t, i, j)
    ensures r.Err? ==> r.failure == ArrayIndexOutOfBounds
    ensures r.Ok? ==> SameShape(t, r.value) && SameAllocs(t, r.value)
  {
    if InBounds(t, i, j) then Ok(SetPrice(t, i, j, cost)) else Err(ArrayIndexOutOfBounds)
  }

  /** `getCellCost` by index, with the same failure. */
  function GetCellCost(t: Table, i: int, j: int): (r: Result<int>)
    requires Valid(t)
    ensures r.Ok? <==> InBounds(t, i, j)
    ensures r.Err? ==> r.failure == ArrayIndexOutOfBounds
  {
    if InBounds(t, i, j) then Ok(Price(t, i, j)) else Err(ArrayIndexOutOfBounds)
  }

  /** Reading a cost back after setting it gives the cost just set, and
      every other cell's cost reads as before. */
  lemma CellCostRoundTrip(t: Table, i: int, j: int, cost: int, a: int, b: int)
    requires Valid(t) && InBounds(t, i, j)
    ensures var u := SetCellCost(t, i, j, cost).value;
      && GetCellCost(u, i, j) == Ok(cost)
      && ((a, b) != (i, j) ==> GetCellCost(u, a, b) == GetCellCost(t, a, b))
  {
  }

  // ---------------------------------------------------------------------------
  // Sums over rows and columns
  // ---------------------------------------------------------------------------

  /** Total quantity shipped along a row of cells. */
  function RowSum(row: seq<Cell>): int {
    if row == [] then 0 else row[0].alloc + RowSum(row[1..])
  }

  /** Shipping cost of a row of cells: the sum of allocation times price. */
  function RowCost(row: seq<Cell>): int {
    if row == [] then 0 else row[0].alloc * row[0].price + RowCost(row[1..])
  }

  predicate HasColumn(cells: seq<seq<Cell>>, j: int) {
    0 <= j && forall i :: 0 <= i < |cells| ==> j < |cells[i]|
  }

  /** Total quantity shipped down column `j`. */
  function ColSum(cells: seq<seq<Cell>>, j: int): int
    requires HasColumn(cells, j)
  {
    if |cells| == 0 then 0 else cells[0][j].alloc + ColSum(cells[1..], j)
  }

  function GridCost(cells: seq<seq<Cell>>): int {
    if cells == [] then 0 else RowCost(cells[0]) + GridCost(cells[1..])
  }

  /** Production of factory `i` not yet shipped (`getRemainingSupply`). */
  function RemainingSupply(t: Table, i: int): int
    requires Valid(t) && 0 <= i < |t.factories|
  {
    t.factories[i].production - RowSum(t.cells[i])
  }

  /** Demand of warehouse `j` not yet met (`getRemainingDemand`). */
  function RemainingDemand(t: Table, j: int): int
    requires Valid(t) && 0 <= j < |t.warehouses|
  {
    t.warehouses[j].demand - ColSum(t.cells, j)
  }

  /** No warehouse has positive remaining demand (`isDemandMet`). */
  predicate IsDemandMet(t: Table)
    requires Valid(t)
  {
    forall j :: 0 <= j < |t.warehouses| ==> RemainingDemand(t, j) <= 0
  }

  /** Total shipping cost of the plan: allocation times price, summed over all cells. */
  function TotalCost(t: Table): int {
    GridCost(t.cells)
  }

  lemma {:induction false} RowUpdate(row: seq<Cell>, k: int, c: Cell)
    requires 0 <= k < |row|
    ensures RowSum(row[k := c]) == RowSum(row) - row[k].alloc + c.alloc
    ensures RowCost(row[k := c]) == RowCost(row) - row[k].alloc * row[k].price + c.alloc * c.price
  {
    if k == 0 {
      assert row[k := c][1..] == row[1..];
    } else {
      RowUpdate(row[1..], k - 1, c);
      assert row[k := c][1..] == row[1..][k - 1 := c];
    }
  }

  lemma {:induction false} GridUpdate(cells: seq<seq<Cell>>, i: int, j: int, c: Cell, q: int)
    requires 0 <= i < |cells| && 0 <= j < |cells[i]| && HasColumn(cells, q)
    ensures HasColumn(cells[i := cells[i][j := c]], q)
    ensures ColSum(cells[i := cells[i][j := c]], q)
         == ColSum(cells, q) + (if q == j then c.alloc - cells[i][j].alloc else 0)
    ensures GridCost(cells[i := cells[i][j := c]])
         == GridCost(cells) - cells[i][j].alloc * cells[i][j].price + c.alloc * c.price
  {
    var u := cells[i := cells[i][j := c]];
    RowUpdate(cells[i], j, c);
    if i == 0 {
      assert u[1..] == cells[1..];
    } else {
      GridUpdate(cells[1..], i - 1, j, c, q);
      assert u[1..] == cells[1..][i - 1 := cells[1..][i - 1][j := c]];
    }
  }

  /** Setting one cell moves only its own row's remaining supply, its own
      column's remaining demand and the total cost, each by the change in
      that cell. */
  lemma SetAllocEffect(t: Table, i: int, j: int, a: int)
    requires Valid(t) && InBounds(t, i, j)
    ensures var r := SetAlloc(t, i, j, a);
      && (forall p :: 0 <= p < |t.factories| ==>
            RemainingSupply(r, p) == RemainingSupply(t, p) - (if p == i then a - Alloc(t, i, j) else 0))
      && (forall q :: 0 <= q < |t.warehouses| ==>
            RemainingDemand(r, q) == RemainingDemand(t, q) - (if q == j then a - Alloc(t, i, j) else 0))
      && TotalCost(r) == TotalCost(t) + (a - Alloc(t, i, j)) * Price(t, i, j)
  {
    var r := SetAlloc(t, i, j, a);
    var c := t.cells[i][j].(alloc := a);
    assert r.cells == t.cells[i := t.cells[i][j := c]];
    RowUpdate(t.cells[i], j, c);
    forall q | 0 <= q < |t.warehouses|
      ensures RemainingDemand(r, q) == RemainingDemand(t, q) - (if q == j then a - Alloc(t, i, j) else 0)
    {
      GridUpdate(t.cells, i, j, c, q);
    }
    GridUpdate(t.cells, i, j, c, j);
    Distribute(a, Alloc(t, i, j), Price(t, i, j));
  }

  /** `SetAllocEffect` for one factory's remaining supply. */
  lemma SetAllocSupply(t: Table, i: int, j: int, a: int, p: int)
    requires Valid(t) && InBounds(t, i, j) && 0 <= p < |t.factories|
    ensures RemainingSupply(SetAlloc(t, i, j, a), p) == RemainingSupply(t, p) - (if p == i then a - Alloc(t, i, j) else 0)
  {
    SetAllocEffect(t, i, j, a);
  }

  /** `SetAllocEffect` for one warehouse's remaining demand. */
  lemma SetAllocDemand(t: Table, i: int, j: int, a: int, q: int)
    requires Valid(t) && InBounds(t, i, j) && 0 <= q < |t.warehouses|
    ensures RemainingDemand(SetAlloc(t, i, j, a), q) == RemainingDemand(t, q) - (if q == j then a - Alloc(t, i, j) else 0)
  {
    SetAllocEffect(t, i, j, a);
  }

  lemma Distribute(a: int, b: int, p: int)
    ensures a * p - b * p == (a - b) * p
  {
  }

  // ---------------------------------------------------------------------------
  // Loading prices (addCosts)
  // ---------------------------------------------------------------------------

  /** The loop of `addCosts` from factory index `fi` and warehouse index `wi`
      on: each cost goes to the current cell, then the warehouse index
      advances and wraps to the next factory. A cost beyond the last cell
      is an index-out-of-bounds failure. */
  function AddCostsFrom(t: Table, costs: seq<int>, fi: nat, wi: nat): (r: Result<Table>)
    requires Valid(t)
    requires fi <= |t.factories| && (fi == |t.factories| ==> wi == 0)
    requires wi < |t.warehouses| || wi == 0
    ensures r.Ok? <==> fi * |t.warehouses| + wi + |costs| <= |t.factories| * |t.warehouses|
    ensures r.Err? ==> r.failure == ArrayIndexOutOfBounds
    ensures r.Ok? ==> SameShape(t, r.value) && SameAllocs(t, r.value)
    decreases |costs|
  {
    var w := |t.warehouses|;
    PositionBound(fi, wi, w, |t.factories|);
    if costs == [] then Ok(t)
    else if fi >= |t.factories| || wi >= w then Err(ArrayIndexOutOfBounds)
    else
      var t' := SetPrice(t, fi, wi, costs[0]);
      CursorAdvance(fi, wi, w, |t.factories|);
      var next := NextCursor(fi, wi, w);
      AddCostsFrom(t', costs[1..], next.0, next.1)
  }

  /** `addCosts`: fills the prices row-major from the flat list of costs. */
  function AddCosts(t: Table, costs: seq<int>): (r: Result<Table>)
    requires Valid(t)
    ensures r.Ok? <==> |costs| <= |t.factories| * |t.warehouses|
    ensures r.Err? ==> r.failure == ArrayIndexOutOfBounds
    ensures r.Ok? ==> SameShape(t, r.value) && SameAllocs(t, r.value)
  {
    AddCostsFrom(t, costs, 0, 0)
  }

  /** A cursor (fi, wi) of `addCosts` never points past the end of the
      table, and it points exactly at the end once it is out of range. */
  lemma PositionBound(fi: int, wi: int, w: int, f: int)
    requires 0 <= fi <= f && 0 <= wi && 0 <= w && (fi == f ==> wi == 0) && (wi < w || wi == 0)
    ensures fi * w + wi <= f * w
    ensures fi >= f || wi >= w ==> fi * w + wi == f * w
  {
    if w == 0 {
    } else if fi < f {
      MulAtLeast(f - fi, w);
      assert f * w - fi * w == (f - fi) * w;
    }
  }

  lemma NextRow(i: int, w: int)
    ensures (i + 1) * w == i * w + w
  {
  }

  /** Row-major positions are distinct for distinct cells. */
  lemma RowMajorInjective(i: int, j: int, a: int, b: int, w: int)
    requires 0 <= i && 0 <= a && 0 <= j < w && 0 <= b < w
    requires i * w + j == a * w + b
    ensures i == a && j == b
  {
    if i < a {
      MulAtLeast(a - i, w);
    } else if a < i {
      MulAtLeast(i - a, w);
    }
  }

  lemma MulAtLeast(k: int, w: int)
    requires k >= 1 && w >= 0
    ensures k * w >= w
  {
    assert k * w == (k - 1) * w + w;
    assert (k - 1) * w >= 0;
  }

  /** The placement promised by `addCosts`: the cost at flat position k
      lands in the cell whose row-major index is k, every other price is
      left as it was, and no allocation changes. */
  lemma {:induction false} AddCostsFromPlacement(t: Table, costs: seq<int>, fi: nat, wi: nat)
    requires Valid(t)
    requires fi <= |t.factories| && (fi == |t.factories| ==> wi == 0)
    requires wi < |t.warehouses| || wi == 0
    requires AddCostsFrom(t, costs, fi, wi).Ok?
    ensures var w := |t.warehouses|; var p := fi * w + wi; var r := AddCostsFrom(t, costs, fi, wi).value;
      forall i, j :: InBounds(t, i, j) ==>
        Price(r, i, j) == if p <= i * w + j < p + |costs| then costs[i * w + j - p] else Price(t, i, j)
    decreases |costs|
  {
    if costs != [] {
      var t' := SetPrice(t, fi, wi, costs[0]);
      var (fi', wi') := NextCursor(fi, wi, |t.warehouses|);
      AddCostsFromStep(t, costs, fi, wi);
      CursorAdvance(fi, wi, |t.warehouses|, |t.factories|);
      AddCostsFromPlacement(t', costs[1..], fi', wi');
      PlacementStep(t, t', AddCostsFrom(t', costs[1..], fi', wi').value, costs, fi, wi, fi' * |t.warehouses| + wi');
    }
  }

  /** The cursor of `addCosts` after one cost: the next warehouse, or the
      first warehouse of the next factory. */
  function NextCursor(fi: nat, wi: nat, w: nat): (nat, nat) {
    if wi + 1 >= w then (fi + 1, 0) else (fi, wi + 1)
  }

  /** One pass of the `addCosts` loop that did not fail: the cursor was on
      a cell, its cost went there, and the loop went on from the next
      cursor position. */
  lemma AddCostsFromStep(t: Table, costs: seq<int>, fi: nat, wi: nat)
    requires Valid(t) && costs != []
    requires fi <= |t.factories| && (fi == |t.factories| ==> wi == 0)
    requires wi < |t.warehouses| || wi == 0
    requires AddCostsFrom(t, costs, fi, wi).Ok?
    ensures InBounds(t, fi, wi)
    ensures var (fi', wi') := NextCursor(fi, wi, |t.warehouses|);
      && fi' <= |t.factories| && (fi' == |t.factories| ==> wi' == 0)
      && (wi' < |t.warehouses| || wi' == 0)
      && AddCostsFrom(t, costs, fi, wi) == AddCostsFrom(SetPrice(t, fi, wi, costs[0]), costs[1..], fi', wi')
  {
    PositionBound(fi, wi, |t.warehouses|, |t.factories|);
    CursorAdvance(fi, wi, |t.warehouses|, |t.factories|);
  }

  /** Advancing a cursor that is on a cell keeps it within the table and
      moves its row-major index by one. */
  lemma CursorAdvance(fi: nat, wi: nat, w: nat, f: nat)
    requires fi < f && wi < w
    ensures var (fi', wi') := NextCursor(fi, wi, w);
      && fi' <= f && (fi' == f ==> wi' == 0) && (wi' < w || wi' == 0)
      && fi' * w + wi' == fi * w + wi + 1
  {
    NextRow(fi, w);
  }

  /** The induction step of `AddCostsFromPlacement`: `u` is `t` with the
      first cost written at the cursor, and `r` holds the rest of the costs
      from the next position on. */
  lemma PlacementStep(t: Table, u: Table, r: Table, costs: seq<int>, fi: nat, wi: nat, next: int)
    requires Valid(t) && InBounds(t, fi, wi) && |costs| > 0
    requires u == SetPrice(t, fi, wi, costs[0]) && SameShape(t, r)
    requires next == fi * |t.warehouses| + wi + 1
    requires var w := |u.warehouses|;
      forall i, j :: InBounds(u, i, j) ==>
        Price(r, i, j) == if next <= i * w + j < next + |costs[1..]| then costs[1..][i * w + j - next] else Price(u, i, j)
    ensures var w := |t.warehouses|; var p := fi * w + wi;
      forall i, j :: InBounds(t, i, j) ==>
        Price(r, i, j) == if p <= i * w + j < p + |costs| then costs[i * w + j - p] else Price(t, i, j)
  {
    var w := |t.warehouses|;
    var p := fi * w + wi;
    forall i, j | InBounds(t, i, j)
      ensures Price(r, i, j) == if p <= i * w + j < p + |costs| then costs[i * w + j - p] else Price(t, i, j)
    {
      var q := i * w + j;
      if q == p {
        RowMajorInjective(i, j, fi, wi, w);
      }
      ShiftedPlacement(costs, p, q, Price(r, i, j), Price(u, i, j), Price(t, i, j), q == p);
    }
  }

  /** One cell of the induction step of `AddCostsFromPlacement`, as pure
      integer reasoning: the cell at cursor `p` received `costs[0]`. */
  lemma ShiftedPlacement(costs: seq<int>, p: int, q: int, inR: int, inNext: int, inT: int, atCursor: bool)
    requires |costs| > 0 && atCursor == (q == p)
    requires inNext == if atCursor then costs[0] else inT
    requires inR == if p + 1 <= q < p + |costs| then costs[1..][q - (p + 1)] else inNext
    ensures inR == if p <= q < p + |costs| then costs[q - p] else inT
  {
  }

  /** `addCosts` writes the k-th cost to row k / |warehouses|, column
      k mod |warehouses|, i.e. the cell with row-major index k. */
  lemma AddCostsPlacement(t: Table, costs: seq<int>)
    requires Valid(t) && AddCosts(t, costs).Ok?
    ensures var w := |t.warehouses|; var r := AddCosts(t, costs).value;
      forall i, j :: InBounds(t, i, j) ==>
        Price(r, i, j) == if i * w + j < |costs| then costs[i * w + j] else Price(t, i, j)
  {
    AddCostsFromPlacement(t, costs, 0, 0);
  }
}
