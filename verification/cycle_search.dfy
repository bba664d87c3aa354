/** The stepping-stone cycle search (`computeSolutionSteps`): a depth-first
    search from one cell that alternately moves along a factory row and
    down a warehouse column through cells that currently ship something,
    with a visited set and pop-the-last-step backtracking. */
module CycleSearch {
  import opened Results
  import opened CostTable

  /** The sign of a step. The source stores it in an `int` and throws on 0;
      here 0 is excluded by the type. */
  type Scale = s: int | s == 1 || s == -1 witness 1

  /** One step of a candidate cycle (`SolutionStep`): a cell and whether
      the pivot adds to it (+1) or takes from it (-1). */
  datatype Step = Step(row: int, col: int, scale: Scale)

  function Pos(s: Step): (int, int) {
    (s.row, s.col)
  }

  /** The line a scan runs over: the cells of one factory row, or the cells
      of one warehouse column. */
  datatype ScanLine = AlongRow(row: int) | DownColumn(col: int)

  predicate LineInBounds(t: Table, l: ScanLine) {
    match l
    case AlongRow(i) => 0 <= i < |t.factories|
    case DownColumn(j) => 0 <= j < |t.warehouses|
  }

  function LineLength(t: Table, l: ScanLine): nat {
    if l.AlongRow? then |t.warehouses| else |t.factories|
  }

  /** The k-th cell of a line, in declared order. */
  function CellOf(l: ScanLine, k: int): (int, int) {
    match l
    case AlongRow(i) => (i, k)
    case DownColumn(j) => (k, j)
  }

  function AllocAt(t: Table, c: (int, int)): int
    requires Valid(t) && InBounds(t, c.0, c.1)
  {
    Alloc(t, c.0, c.1)
  }

  /** The inner `for` loop of one search step, from index `k` on: a visited
      cell is skipped, every other inspected cell is marked visited, and
      the scan stops at the first inspected cell that ships something.
      Returns the grown visited set and the index found, if any. */
  function Scan(t: Table, l: ScanLine, k: int, visited: set<(int, int)>): (r: (set<(int, int)>, Option<int>))
    requires Valid(t) && LineInBounds(t, l) && 0 <= k <= LineLength(t, l)
    ensures visited <= r.0 <= visited + AllCells(t)
    ensures r.1.Some? ==> var m := r.1.value;
      && k <= m < LineLength(t, l)
      && CellOf(l, m) !in visited && CellOf(l, m) in r.0
      && AllocAt(t, CellOf(l, m)) > 0
      && forall n :: k <= n < m ==> CellOf(l, n) in visited || AllocAt(t, CellOf(l, n)) <= 0
    ensures r.1.None? ==>
      forall n :: k <= n < LineLength(t, l) ==> CellOf(l, n) in visited || AllocAt(t, CellOf(l, n)) <= 0
    decreases LineLength(t, l) - k
  {
    if k == LineLength(t, l) then (visited, None)
    else if CellOf(l, k) in visited then Scan(t, l, k + 1, visited)
    else if AllocAt(t, CellOf(l, k)) <= 0 then Scan(t, l, k + 1, visited + {CellOf(l, k)})
    else (visited + {CellOf(l, k)}, Some(k))
  }

  /** Where a scan stops: one past the cell it found, or the end of the
      line. */
  function ScanStop(t: Table, l: ScanLine, r: (set<(int, int)>, Option<int>)): int {
    if r.1.Some? then r.1.value + 1 else LineLength(t, l)
  }

  /** A scan marks every cell it inspects as visited, from index `k` up to
      and including the cell it stops at, empty cells included. */
  lemma {:induction false} ScanMarksInspected(t: Table, l: ScanLine, k: int, visited: set<(int, int)>)
    requires Valid(t) && LineInBounds(t, l) && 0 <= k <= LineLength(t, l)
    ensures var r := Scan(t, l, k, visited);
      forall n :: k <= n < ScanStop(t, l, r) ==> CellOf(l, n) in r.0
    decreases LineLength(t, l) - k
  {
    if k < LineLength(t, l) && (CellOf(l, k) in visited || AllocAt(t, CellOf(l, k)) <= 0) {
      var v := if CellOf(l, k) in visited then visited else visited + {CellOf(l, k)};
      var r := Scan(t, l, k + 1, v);
      assert Scan(t, l, k, visited) == r;
      ScanMarksInspected(t, l, k + 1, v);
      assert CellOf(l, k) in r.0;
    }
  }

  /** A scan adds nothing to the visited set but the cells it inspects. */
  lemma {:induction false} ScanMarksOnly(t: Table, l: ScanLine, k: int, visited: set<(int, int)>)
    requires Valid(t) && LineInBounds(t, l) && 0 <= k <= LineLength(t, l)
    ensures var r := Scan(t, l, k, visited);
      forall c :: c in r.0 ==> c in visited || exists n :: k <= n < ScanStop(t, l, r) && c == CellOf(l, n)
    decreases LineLength(t, l) - k
  {
    if k < LineLength(t, l) && (CellOf(l, k) in visited || AllocAt(t, CellOf(l, k)) <= 0) {
      var v := if CellOf(l, k) in visited then visited else visited + {CellOf(l, k)};
      var r := Scan(t, l, k + 1, v);
      assert Scan(t, l, k, visited) == r;
      ScanMarksOnly(t, l, k + 1, v);
      var stop := ScanStop(t, l, r);
      forall c | c in r.0 && c !in visited
        ensures exists n :: k <= n < stop && c == CellOf(l, n)
      {
        if c == CellOf(l, k) {
          assert k <= k < stop;
        } else {
          var n :| k + 1 <= n < stop && c == CellOf(l, n);
        }
      }
    }
  }

  /** Consecutive steps of a cycle: the sign flips, a step after a +1 step
      stays in its factory row, a step after a -1 step stays in its
      warehouse column. */
  predicate Link(a: Step, b: Step) {
    && b.scale == -1 * a.scale
    && (a.scale == 1 ==> b.row == a.row)
    && (a.scale == -1 ==> b.col == a.col)
  }

  predicate Chain(c: seq<Step>) {
    forall k :: 0 < k < |c| ==> Link(c[k - 1], c[k])
  }

  predicate Distinct(c: seq<Step>) {
    forall a, b :: 0 <= a < b < |c| ==> Pos(c[a]) != Pos(c[b])
  }

  predicate StepsInBounds(t: Table, c: seq<Step>) {
    forall k :: 0 <= k < |c| ==> InBounds(t, c[k].row, c[k].col)
  }

  /** Every step after the first is a cell that currently ships something. */
  predicate LaterStepsShip(t: Table, c: seq<Step>)
    requires Valid(t) && StepsInBounds(t, c)
  {
    forall k :: 0 < k < |c| ==> Alloc(t, c[k].row, c[k].col) > 0
  }

  /** A path of the search from (r0, c0): it starts at that cell with
      scale +1, links step to step, visits no cell twice, and every later
      cell ships something. */
  predicate IsPath(t: Table, r0: int, c0: int, c: seq<Step>) {
    && Valid(t)
    && |c| >= 1
    && c[0] == Step(r0, c0, 1)
    && StepsInBounds(t, c)
    && Chain(c)
    && Distinct(c)
    && LaterStepsShip(t, c)
  }

  /** The search closed in the row-move branch (:135-137): the last step
      was taken along a row (so it has scale -1) and landed in the start
      column. */
  predicate ClosedInRowMove(c0: int, c: seq<Step>) {
    |c| >= 2 && c[|c| - 1].scale == -1 && c[|c| - 1].col == c0
  }

  /** The search closed in the column-move branch (:188-190): the last step
      was taken down a column (so it has scale +1) and landed in the start
      row. */
  predicate ClosedInColumnMove(r0: int, c: seq<Step>) {
    |c| >= 2 && c[|c| - 1].scale == 1 && c[|c| - 1].row == r0
  }

  /** A result of the search that is not the empty failure. */
  predicate IsCycle(t: Table, r0: int, c0: int, c: seq<Step>) {
    IsPath(t, r0, c0, c) && (ClosedInRowMove(c0, c) || ClosedInColumnMove(r0, c))
  }

  /** The state of the search loop: the step stack is a path from the start
      cell and every cell on it has been visited. */
  predicate SearchState(t: Table, r0: int, c0: int, visited: set<(int, int)>, steps: seq<Step>) {
    && IsPath(t, r0, c0, steps)
    && visited <= AllCells(t)
    && forall k :: 0 <= k < |steps| ==> Pos(steps[k]) in visited
  }

  /** The `while (true)` loop of `computeSolutionSteps`. From the last step
      it scans along its row (scale +1) or down its column (scale -1). A
      found cell is pushed with the opposite scale; the search stops there
      if the cell lies in the start column (row move) or the start row
      (column move). A dead end pops the last step; an empty stack is the
      failed search. Every round either visits a new cell or pops a step. */
  function Explore(t: Table, r0: int, c0: int, visited: set<(int, int)>, steps: seq<Step>): (r: seq<Step>)
    requires SearchState(t, r0, c0, visited, steps)
    ensures r == [] || IsCycle(t, r0, c0, r)
    decreases AllCells(t) - visited, |steps|
  {
    var cur := steps[|steps| - 1];
    var line := if cur.scale > 0 then AlongRow(cur.row) else DownColumn(cur.col);
    var (seen, found) := Scan(t, line, 0, visited);
    match found
    case Some(k) =>
      var next := Step(CellOf(line, k).0, CellOf(line, k).1, -1 * cur.scale);
      var grown := steps + [next];
      assert Pos(next) in AllCells(t) - visited;
      assert SearchState(t, r0, c0, seen, grown) by {
        assert Link(cur, next);
        assert forall a :: 0 <= a < |steps| ==> Pos(grown[a]) != Pos(next);
      }
      if (cur.scale > 0 && k == c0) || (cur.scale < 0 && k == r0) then grown
      else Explore(t, r0, c0, seen, grown)
    case None =>
      var popped := steps[..|steps| - 1];
      if |popped| == 0 then []
      else
        assert SearchState(t, r0, c0, seen, popped);
        Explore(t, r0, c0, seen, popped)
  }

  /** `computeSolutionSteps` started from cell (r0, c0): it always
      terminates, and returns either the empty (failed) search or a path
      from (r0, c0) closed in one of the two branches. */
  function ComputeSolutionSteps(t: Table, r0: int, c0: int): (r: seq<Step>)
    requires Valid(t) && InBounds(t, r0, c0)
    ensures r == [] || IsCycle(t, r0, c0, r)
  {
    Explore(t, r0, c0, {(r0, c0)}, [Step(r0, c0, 1)])
  }
}
