# Transportation-Algorithm in Dafny

A model of the allocation engine of Transportation-Algorithm, a Java solver for
the transportation problem, and of its data-file reader, with proofs about both.

A cost table has one row per factory, with a production, and one column per
warehouse, with a demand. Each (factory, warehouse) cell holds a unit price and
the quantity currently shipped on that pair. The engine works in two phases:

- **Minimum-cost cell.** It builds a first shipment plan greedily. While some
  warehouse still has unmet demand, it picks the cheapest cell whose factory
  still has supply and whose warehouse still has demand. That cell is set to
  the smaller of the two remaining capacities.
- **Stepping stone.** It improves the plan in sweeps. Each sweep takes every
  empty cell and runs a depth-first search from it for an alternating cycle
  through cells that ship something. The search keeps a visited set and
  backtracks by popping the last step. The cycle is priced by its signed sum
  of prices. If that sum is negative, the cycle is pivoted: the leaving
  quantity is moved around it. The sweeps repeat while one of them improved
  something.

The data file has a header line `costs <warehouse>... supply`. Then comes one
line per factory, `<name> <cost>... <production>`. Last comes a line
`demand <demand>...`.

The model is functional. The table is an immutable `seq<seq<Cell>>` indexed by
position, and every operation is a pure function, except the greedy loop, which
is a method with loop invariants. Java exceptions become `Err` values of
`Results.Result`.

Files, one module each:

- `results.dfy` — `Option`, `Result` and the failure kinds.
- `cost_table.dfy` — the table, cell access, remaining supply and demand, the
  total cost, and `addCosts`.
- `initial_solution.dfy` — `nextMinimumCell` and `minimumCellCost`.
- `cycle_search.dfy` — `computeSolutionSteps`, written as a recursive function.
  Its termination measure is (unvisited cells, number of steps).
- `pivot.dfy` — `calculateSolutionCost` and `optimize`, with the balance and
  cost lemmas.
- `optimizer.dfy` — the sweeps of `optimizeSolution`, and its outer loop
  written once over any sweep function (`Optimizer.Repeat`).
- `data_file.dfy` — `DataFileParser.parseFile` as a state machine over
  pre-split lines.

### Where the code differs from the textbook stepping-stone method

- The textbook minimum-cost-cell step adds the minimum to the cell. The code
  sets the cell to it. `InitialSolution.GreedyStep` proves that the chosen cell is
  always empty, so the two agree on every run.
- In the textbook method the leaving quantity is the minimum allocation over
  the -1 steps. The code takes a step's allocation when "nothing taken yet" (0) or
  when it is smaller. `Pivot.LeavingIsMinimum` proves this is the minimum on
  every search result, because every -1 step of a result ships something.
- In the textbook method every cycle has net sign 0 in each row and column.
  Here that holds only when the search closes in its row-move branch
  (`Pivot.RowClosedBalanced`). A search can also close in the column-move
  branch, landing in the start row. That cycle leaves net sign +1 in the start
  row and the start column (`Pivot.ColumnClosedSigns`). Pivoting it ships the
  leaving quantity once more out of the start factory and into the start
  warehouse (`Pivot.ColumnClosedPivotShifts`). Such a closure needs a cycle
  among the cells that ship something. This model does not prove whether the
  greedy plan and its pivots can produce one.
- The search marks every cell it inspects as visited, empty cells included, not
  only the cells it steps to (`CycleSearch.ScanMarksInspected`).
- A sweep's start cells are collected when the sweep begins. A cell that a
  pivot empties during the sweep is not searched until the next sweep.

## Model

| member | source | states |
|---|---|---|
| CostTable.NewTable | CostTable.java:13-34 | the constructor builds one cell per (factory, warehouse) pair, each with price 0 and nothing shipped |
| CostTable.SetPrice | CostTable.java:383-385 | setting a cell's cost changes that one price; every allocation and every other price stays the same |
| CostTable.SetCellCost | CostTable.java:374-381 | `setCellCost` by index succeeds exactly when both indices are in range, and otherwise fails with an index error |
| CostTable.GetCellCost | CostTable.java:387-394 | `getCellCost` by index succeeds exactly when both indices are in range, and otherwise fails with an index error |
| CostTable.CellCostRoundTrip | CostTable.java:374-398 | after a cost is set, reading that cell gives it back, and reading any other cell gives what it gave before |
| CostTable.SetAlloc | CostTable.java:255 | writing one cell's shipment sets that cell to the new value; every other cell's shipment, every price and the shape stay the same |
| CostTable.SetAllocEffect | CostTable.java:350-372 | changing one cell's shipment by d lowers its factory's remaining supply and its warehouse's remaining demand by d and leaves every other factory and warehouse alone; total cost changes by d times the price |
| CostTable.SetAllocSupply | CostTable.java:362-372 | changing one cell's shipment by d lowers its own factory's remaining supply by d and no other factory's |
| CostTable.SetAllocDemand | CostTable.java:350-360 | changing one cell's shipment by d lowers its own warehouse's remaining demand by d and no other warehouse's |
| CostTable.AddCostsFrom | CostTable.java:404-422 | the `addCosts` loop from a cursor fails with an index error exactly when the costs run past the last cell; it never touches allocations |
| CostTable.AddCosts | CostTable.java:404-422 | `addCosts` succeeds exactly when there are at most factories × warehouses costs; it never touches allocations |
| CostTable.AddCostsFromPlacement | CostTable.java:404-422 | from cursor position p, the loop writes cost k to the cell with row-major index p + k; every other price is left alone |
| CostTable.AddCostsFromStep | CostTable.java:404-422 | a pass of the `addCosts` loop that does not fail finds its cursor on a cell, writes the cost there, and continues from the next warehouse, or from the first warehouse of the next factory |
| CostTable.AddCostsPlacement | CostTable.java:404-422 | `addCosts` writes the k-th cost to cell (k / warehouses, k mod warehouses); cells past the list keep their price |
| InitialSolution.ScanWarehouses | CostTable.java:309-325 | after a factory's warehouses are scanned, the choice is the cheapest open cell so far, and the first one among equally cheap cells |
| InitialSolution.ScanFactories | CostTable.java:301-327 | after all factories are scanned (full factories skipped), the choice covers every open cell of the table |
| InitialSolution.FindMinimumCell | CostTable.java:295-327 | there is no choice exactly when no cell is open; otherwise the choice is open, no dearer than any open cell, and strictly cheaper than every open cell before it in row-major order |
| InitialSolution.NextMinimumCell | CostTable.java:295-334 | fails (null dereference) exactly when no cell is open; otherwise it sets the chosen cell to min(remaining supply, remaining demand) and changes no other cell and no price |
| InitialSolution.GreedyStep | CostTable.java:295-334 | the chosen cell was empty; afterwards it ships something; its factory or warehouse is closed; no capacity goes negative; the set of open factories and warehouses strictly shrinks |
| InitialSolution.GreedyCell | CostTable.java:295-334 | on a settled plan the chosen cell is empty, ships a positive quantity afterwards, and closes its factory or its warehouse without overshooting either; the plan stays settled and non-negative |
| InitialSolution.GreedyLines | CostTable.java:295-334 | the same step strictly shrinks the set of factories with supply left and warehouses with demand left |
| InitialSolution.ShortSupply | CostTable.java:329-332 | when no cell is open but some demand is unmet, the remaining supply is smaller than the remaining demand |
| InitialSolution.MinimumCellCost | CostTable.java:287-293 | from an empty plan the loop terminates; with non-negative capacities it fails exactly when production is short of demand; otherwise every demand is met and nothing is negative; on a balanced instance every factory ships its whole production |
| CycleSearch.Scan | CostTable.java:106-118 | the inner scan only grows the visited set, within the table; it stops at the first unvisited cell that ships something, having passed only visited or empty cells, and reports no cell exactly when every cell of the line is visited or empty |
| CycleSearch.ScanMarksInspected | CostTable.java:106-118 | every cell the scan inspects, from where it starts up to and including the cell it stops at, is in the grown visited set, empty cells included |
| CycleSearch.ScanMarksOnly | CostTable.java:106-118 | the scan adds to the visited set nothing but the cells it inspected |
| CycleSearch.Explore | CostTable.java:100-212 | the search loop terminates; its result is empty or a cycle: starts at the start cell with +1, linked steps with flipping sign, distinct cells, every later cell ships something, closed in one of the two branches |
| CycleSearch.ComputeSolutionSteps | CostTable.java:87-214 | `computeSolutionSteps` from one cell returns either the failed (empty) search or a cycle of that shape |
| Pivot.Optimize | CostTable.java:223-270 | `optimize` reports an improvement exactly when the cycle cost is negative; otherwise, and always for an empty cycle, the table is unchanged; prices never change |
| Pivot.ApplySteps | CostTable.java:248-257 | applying the steps never changes the shape of the table or any price |
| Pivot.SolutionCostPrices | CostTable.java:272-285 | the cycle cost depends only on the prices, not on the allocations |
| Pivot.ChainSigns | CostTable.java:120-123 | along linked steps, signs cancel in pairs: same-row pairs from a +1 start, same-column pairs from a -1 start; only the last step of an odd-length chain is left over |
| Pivot.RowClosedBalanced | CostTable.java:102-139 | a cycle that closes in the row-move branch has net sign 0 in every row and every column |
| Pivot.ColumnClosedSigns | CostTable.java:155-190 | a cycle that closes in the column-move branch has net sign +1 in the start row and the start column and 0 in every other row and column |
| Pivot.CellSignOnce | CostTable.java:248-257 | a cell that appears once among distinct steps has the net sign of that step |
| Pivot.CellSignOff | CostTable.java:248-257 | a cell that is not on the steps has net sign 0 |
| Pivot.ApplyStepsCell | CostTable.java:248-257 | applying the steps with an amount moves each cell by the amount times its net sign |
| Pivot.ApplyStepsSupply | CostTable.java:248-257 | applying the steps lowers each factory's remaining supply by the amount times its row's net sign |
| Pivot.ApplyStepsDemand | CostTable.java:248-257 | applying the steps lowers each warehouse's remaining demand by the amount times its column's net sign |
| Pivot.ApplyStepsCost | CostTable.java:248-285 | applying the steps changes the total cost by the amount times the cycle cost |
| Pivot.LeavingFromMinimum | CostTable.java:229-246 | when every -1 step ships something, the leaving loop's result is positive once anything was taken, no larger than any -1 step's allocation, and equal to one of them (or to the starting value) |
| Pivot.LeavingIsMinimum | CostTable.java:229-246 | for a search result, the leaving quantity is positive and is the least allocation among the -1 steps |
| Pivot.ImprovingPivotCells | CostTable.java:223-262 | an improving pivot moves each cell on the cycle by exactly its sign times the leaving quantity, leaves every other cell alone, and keeps non-negative allocations non-negative |
| Pivot.ImprovingPivotCost | CostTable.java:225-262 | an improving pivot lowers the total cost by exactly minus the cycle cost times the leaving quantity, so strictly |
| Pivot.RowClosedPivotKeepsTotals | CostTable.java:135-137 | pivoting a cycle closed in the row-move branch, by any amount, keeps every factory's remaining supply and every warehouse's remaining demand |
| Pivot.ColumnClosedPivotShifts | CostTable.java:188-190 | pivoting a cycle closed in the column-move branch by an amount ships that amount more out of the start factory and into the start warehouse, and changes no other row or column total |
| Optimizer.EmptyCells | CostTable.java:54-72 | a sweep's start cells are exactly the empty cells, each listed once, in row-major order |
| Optimizer.SweepFrom | CostTable.java:74-81 | the sweep loop keeps shape and prices, and once the improvement flag is set it stays set |
| Optimizer.Round | CostTable.java:76-80 | one search-and-optimize round: if it reports an improvement the total cost strictly fell, otherwise nothing changed; allocations stay non-negative |
| Optimizer.SweepFromEffect | CostTable.java:74-81 | the sweep loop never raises the total cost; it lowers it if a round reported an improvement; with no improvement the table is unchanged |
| Optimizer.Sweep | CostTable.java:50-81 | one sweep over the empty cells never changes the shape of the table or any price |
| Optimizer.SweepEffect | CostTable.java:50-81 | a whole sweep that reports no improvement leaves every allocation unchanged; one that reports an improvement lowered the total cost |
| Optimizer.QuietSweep | CostTable.java:50-81 | a sweep that reports no improvement returns its input table |
| Optimizer.Repeat | CostTable.java:46-85 | the `while (continueOptimizing)` loop around any sweep that keeps shape and prices keeps the shape of the table and every price |
| Optimizer.RepeatConverged | CostTable.java:46-85 | when a quiet sweep returns its input, a loop that stopped by itself returns a fixed point: one more sweep reports nothing and changes nothing |
| Optimizer.RepeatCost | CostTable.java:46-85 | when no sweep raises the cost and every improving sweep lowers it, the loop never raises the total cost, strictly lowers it if the table changed, and keeps allocations non-negative |
| Optimizer.SweepIsWellBehaved | CostTable.java:50-81 | the sweep of this model keeps the shape, returns its input when quiet, never raises the cost, lowers it when it reports an improvement, and keeps allocations non-negative |
| Optimizer.OptimizeSolution | CostTable.java:46-85 | `optimizeSolution` (bounded by a number of sweeps) keeps the shape of the table and every price |
| Optimizer.OptimizeSolutionConverged | CostTable.java:46-85 | the loop stops only after a sweep without improvement, so a converged result is a fixed point of the sweep |
| Optimizer.OptimizeSolutionCost | CostTable.java:46-85 | over the whole loop the total cost never rises, and strictly falls if the table changed; non-negative allocations stay non-negative |
| DataFileParser.CreateWarehouses | DataFileParser.java:97-115 | one warehouse per name, in order, with no demand yet |
| DataFileParser.ParseInts | DataFileParser.java:62-64 | a list of cost tokens parses exactly when every token is a number; the results are those numbers in order |
| DataFileParser.UpdateDemandsFrom | DataFileParser.java:117-123 | succeeds exactly when there are no more tokens than warehouses and all are numbers; token n sets warehouse n's demand and the others keep theirs; a surplus token is an index error even when it is not a number |
| DataFileParser.DemandLine | DataFileParser.java:69-80 | a demand line must start with `demand` (otherwise a parse exception); it only changes the warehouses |
| DataFileParser.ParseLineEffect | DataFileParser.java:26-83 | an empty line changes nothing; the mode never moves back; factories and costs only grow at the end, and only in cost mode |
| DataFileParser.HeaderLine | DataFileParser.java:33-46 | the header is accepted exactly when it has at least two tokens, starts with `costs` and ends with `supply`; the warehouses are the tokens in between, in order; the mode becomes cost mode |
| DataFileParser.DemandFallsThrough | DataFileParser.java:47-53 | in cost mode, a line starting with `demand` does exactly what it does in demand mode, and the mode becomes demand mode |
| DataFileParser.CostLine | DataFileParser.java:49-66 | in cost mode, any other line adds exactly one factory (first token as name, last as production) and appends the middle tokens to the costs in order; it fails exactly when one of these is not a number |
| DataFileParser.DemandLineEffect | DataFileParser.java:69-80 | in demand mode, a line not starting with `demand` is a parse exception; otherwise demand token n sets warehouse n's demand; more tokens than warehouses is an error |
| DataFileParser.BlankLinesIgnored | DataFileParser.java:28-30 | empty lines anywhere in the file do not change the result of the parse |
| DataFileParser.ParseLinesReachable | DataFileParser.java:15-46 | throughout the loop the warehouse array is null exactly while no header has been read, and nothing else has been read before it |
| DataFileParser.NoHeaderFails | DataFileParser.java:89 | a file with no non-empty line leaves the warehouse array null, so building the table fails |
| DataFileParser.HeaderRead | DataFileParser.java:33-46 | a written header line reads back as cost mode with the problem's warehouse names and no demands |
| DataFileParser.FactoryLineRead | DataFileParser.java:49-66 | a written factory line reads back as that factory, with its cost row appended to the costs |
| DataFileParser.FactoryLinesRead | DataFileParser.java:47-66 | the written factory lines read back as the factories in order and their cost rows one after the other |
| DataFileParser.DemandRead | DataFileParser.java:47-80 | a written demand line, read in cost mode, switches to demand mode and restores every warehouse's demand |
| DataFileParser.RenderedLinesRead | DataFileParser.java:26-83 | the loop over a written problem ends in demand mode with its warehouses, its factories and its costs row after row |
| DataFileParser.ProblemTableBuilt | DataFileParser.java:89-91 | building the table from those factories, warehouses and costs gives the problem's table, with nothing shipped |
| DataFileParser.FactoryLine | DataFileParser.java:55-66 | a factory line succeeds exactly when its last token and every token between the name and the last are numbers, otherwise a number-format error; it appends one factory (first token as name, last as production) and its costs after the old ones, and changes nothing else |
| DataFileParser.ParseLine | DataFileParser.java:28-81 | a header error arises exactly while no header has been read; an accepted non-empty line in that mode moves to cost mode with the warehouse array set |
| DataFileParser.ParseLines | DataFileParser.java:26-83 | over any run of lines the mode never moves back, and the factories and costs read so far stay a prefix of those read later |
| DataFileParser.ParseFile | DataFileParser.java:11-95 | the parse succeeds exactly when the loop succeeds, a header was read and there are no more costs than cells; the table then has the factories and warehouses read and ships nothing |
| DataFileParser.RoundTrip | DataFileParser.java:11-95 | a problem written as header, factory lines and demand line reads back as its own cost table: factories in file order, demands as written, costs placed row-major, nothing shipped |

## Left out

- TransportApplication.java (command-line entry point, printing, exit codes) and Solution.java (a plain list of steps, here a `seq<Step>`): no logic to model.
- `CostTable.toString` (CostTable.java:424-458): text formatting only.
- The `solutionTable` field (CostTable.java:11, 36-42): it is written once and never read.
- Opening and reading the file, and the swallowed `IOException` (DataFileParser.java:13, 26, 85-87). The parser takes the lines as input, already split at white space. An empty line is the one-token list `[""]`.
- `String.split`, `toLowerCase` and `Integer.parseInt` are not modelled. Lower-casing and number parsing are functions passed in through `DataFileParser.Lexer`.
- Java's 32-bit `int` arithmetic: all quantities are unbounded integers, so overflow in the sums is not modelled.
- Factory, Warehouse, Cell and SolutionStep are not part of this model; they are taken as plain records. A new cell is assumed to hold price 0 and nothing shipped, and a new warehouse demand 0. Cells are addressed by position instead of through the `HashMap` keyed by factory and warehouse objects. This assumes no two factories and no two warehouses are equal as keys. The visited set of the cycle search holds positions, so it likewise assumes that `visitedCells.contains` (CostTable.java:110, 163) tells two cells apart exactly when they sit at different positions.
- CycleSearch.Explore: the exception for a step with sign 0 (CostTable.java:208-210) cannot arise, because `Scale` admits only +1 and -1.
- Optimizer.OptimizeSolution: is given a bound on the number of sweeps and reports whether the loop stopped by itself within it. Termination of the unbounded loop is not proved. It may not hold on degenerate instances or after a column-move closure.
- InitialSolution.MinimumCellCost: requires an empty plan, which is the state at its only call. From a plan that already ships something, the step that sets a cell can reopen a factory, and the loop has no decreasing measure.
- Optimizer.SweepEffect: row and column totals are not claimed for whole sweeps. They are proved only per pivot, for cycles closed in the row-move branch (`Pivot.RowClosedPivotKeepsTotals`). Whether a column-move closure can occur in a run is left open.
