/** The pivot of the stepping-stone method (`optimize` and
    `calculateSolutionCost`): price a cycle and, if it lowers the cost,
    shift the leaving quantity around it. */
module Pivot {
  import opened CostTable
  import opened CycleSearch

  /** `calculateSolutionCost`: the signed sum of the prices of the steps. */
  function SolutionCost(t: Table, c: seq<Step>): int
    requires Valid(t) && StepsInBounds(t, c)
  {
    if c == [] then 0 else c[0].scale * Price(t, c[0].row, c[0].col) + SolutionCost(t, c[1..])
  }

  /** The first loop of `optimize` from accumulator `acc` on: over the -1
      steps, take a step's allocation when nothing has been taken yet
      (`acc == 0`) or when it is smaller than what was taken. */
  function LeavingFrom(t: Table, c: seq<Step>, acc: int): int
    requires Valid(t) && StepsInBounds(t, c)
  {
    if c == [] then acc
    else if c[0].scale > 0 then LeavingFrom(t, c[1..], acc)
    else
      var a := Alloc(t, c[0].row, c[0].col);
      LeavingFrom(t, c[1..], if acc == 0 || a < acc then a else acc)
  }

  /** The leaving quantity of `optimize`. */
  function Leaving(t: Table, c: seq<Step>): int
    requires Valid(t) && StepsInBounds(t, c)
  {
    LeavingFrom(t, c, 0)
  }

  /** The second loop of `optimize`: each step's cell, in order, gets
      `scale * amount` added to its allocation. */
  function ApplySteps(t: Table, c: seq<Step>, amount: int): (r: Table)
    requires Valid(t) && StepsInBounds(t, c)
    ensures SameShape(t, r) && SamePrices(t, r)
    decreases |c|
  {
    if c == [] then t
    else
      var s := c[0];
      ApplySteps(SetAlloc(t, s.row, s.col, Alloc(t, s.row, s.col) + s.scale * amount), c[1..], amount)
  }

  /** `optimize`: a cycle of negative cost is applied with the leaving
      quantity and reported as an improvement; any other cycle, the empty
      (failed) search included, changes nothing. */
  function Optimize(t: Table, c: seq<Step>): (r: (bool, Table))
    requires Valid(t) && StepsInBounds(t, c)
    ensures r.0 <==> SolutionCost(t, c) < 0
    ensures !r.0 ==> r.1 == t
    ensures c == [] ==> r == (false, t)
    ensures SameShape(t, r.1) && SamePrices(t, r.1)
  {
    if SolutionCost(t, c) < 0 then (true, ApplySteps(t, c, Leaving(t, c)))
    else (false, t)
  }

  // ---------------------------------------------------------------------------
  // Net scales of a cycle per cell, per row and per column
  // ---------------------------------------------------------------------------

  function CellSign(c: seq<Step>, i: int, j: int): int {
    if c == [] then 0 else (if Pos(c[0]) == (i, j) then c[0].scale else 0) + CellSign(c[1..], i, j)
  }

  function RowSign(c: seq<Step>, i: int): int {
    if c == [] then 0 else (if c[0].row == i then c[0].scale else 0) + RowSign(c[1..], i)
  }

  function ColSign(c: seq<Step>, j: int): int {
    if c == [] then 0 else (if c[0].col == j then c[0].scale else 0) + ColSign(c[1..], j)
  }

  /** A cell that occurs once in the steps has the net scale of that step. */
  lemma {:induction false} CellSignOnce(c: seq<Step>, k: int)
    requires Distinct(c) && 0 <= k < |c|
    ensures CellSign(c, c[k].row, c[k].col) == c[k].scale
  {
    if k == 0 {
      CellSignOff(c[1..], c[0].row, c[0].col);
    } else {
      assert Pos(c[0]) != Pos(c[k]);
      assert Distinct(c[1..]) by {
        forall a, b | 0 <= a < b < |c| - 1 ensures Pos(c[1..][a]) != Pos(c[1..][b]) {
          assert c[1..][a] == c[a + 1] && c[1..][b] == c[b + 1];
        }
      }
      CellSignOnce(c[1..], k - 1);
    }
  }

  /** A cell that is not on the steps has net scale 0. */
  lemma {:induction false} CellSignOff(c: seq<Step>, i: int, j: int)
    requires forall k :: 0 <= k < |c| ==> Pos(c[k]) != (i, j)
    ensures CellSign(c, i, j) == 0
  {
    if c != [] {
      assert forall k :: 0 <= k < |c| - 1 ==> c[1..][k] == c[k + 1];
      CellSignOff(c[1..], i, j);
    }
  }

  /** A chain of linked steps cancels in pairs: from a +1 start every pair
      of steps shares a row, from a -1 start every pair shares a column;
      only the last step of an odd-length chain is left over. */
  lemma {:induction false} ChainSigns(c: seq<Step>, i: int, j: int)
    requires Chain(c) && |c| >= 1
    ensures c[|c| - 1].scale == if |c| % 2 == 1 then c[0].scale else -1 * c[0].scale
    ensures c[0].scale == 1 ==>
      RowSign(c, i) == if |c| % 2 == 1 && c[|c| - 1].row == i then 1 else 0
    ensures c[0].scale == -1 ==>
      ColSign(c, j) == if |c| % 2 == 1 && c[|c| - 1].col == j then -1 else 0
  {
    if |c| == 2 {
      assert Link(c[0], c[1]);
      assert c[1..][1..] == [];
      assert RowSign(c[1..], i) == (if c[1].row == i then c[1].scale else 0) + RowSign([], i);
      assert ColSign(c[1..], j) == (if c[1].col == j then c[1].scale else 0) + ColSign([], j);
    } else if |c| > 2 {
      var rest := c[2..];
      assert Link(c[0], c[1]) && Link(c[1], c[2]);
      assert Chain(rest) by {
        forall k | 0 < k < |rest| ensures Link(rest[k - 1], rest[k]) {
          assert rest[k - 1] == c[k + 1] && rest[k] == c[k + 2];
          assert Link(c[k + 1], c[k + 2]);
        }
      }
      ChainSigns(rest, i, j);
      assert c[1..][1..] == rest;
      assert rest[|rest| - 1] == c[|c| - 1];
    }
  }

  /** The balance property of a cycle closed in the row-move branch: the
      net scale of every factory row and of every warehouse column is 0. */
  lemma RowClosedBalanced(t: Table, r0: int, c0: int, c: seq<Step>, i: int, j: int)
    requires IsCycle(t, r0, c0, c) && ClosedInRowMove(c0, c)
    ensures RowSign(c, i) == 0 && ColSign(c, j) == 0
  {
    ChainSigns(c, i, j);
    var rest := c[1..];
    assert Chain(rest) by {
      forall k | 0 < k < |rest| ensures Link(rest[k - 1], rest[k]) {
        assert rest[k - 1] == c[k] && rest[k] == c[k + 1];
        assert Link(c[k], c[k + 1]);
      }
    }
    assert Link(c[0], c[1]);
    ChainSigns(rest, i, j);
    assert rest[|rest| - 1] == c[|c| - 1];
  }

  /** A cycle closed in the column-move branch is not balanced: its start
      row and its start column are each left with net scale +1, every
      other row and column with 0. */
  lemma ColumnClosedSigns(t: Table, r0: int, c0: int, c: seq<Step>, i: int, j: int)
    requires IsCycle(t, r0, c0, c) && ClosedInColumnMove(r0, c)
    ensures RowSign(c, i) == (if i == r0 then 1 else 0)
    ensures ColSign(c, j) == (if j == c0 then 1 else 0)
  {
    ChainSigns(c, i, j);
    var rest := c[1..];
    assert Chain(rest) by {
      forall k | 0 < k < |rest| ensures Link(rest[k - 1], rest[k]) {
        assert rest[k - 1] == c[k] && rest[k] == c[k + 1];
        assert Link(c[k], c[k + 1]);
      }
    }
    assert Link(c[0], c[1]);
    ChainSigns(rest, i, j);
    assert rest[|rest| - 1] == c[|c| - 1];
  }

  // ---------------------------------------------------------------------------
  // What applying a cycle does to the table
  // ---------------------------------------------------------------------------

  /** The cycle cost reads prices only. */
  lemma {:induction false} SolutionCostPrices(t: Table, u: Table, c: seq<Step>)
    requires SameShape(t, u) && SamePrices(t, u) && StepsInBounds(t, c)
    ensures SolutionCost(u, c) == SolutionCost(t, c)
  {
    if c != [] {
      SolutionCostPrices(t, u, c[1..]);
    }
  }

  /** One step of a pointwise induction over the steps, as integer
      reasoning: a value moved by `s * amount` on a hit, then by `amount`
      times the rest's net scale, moved by `amount` times the whole net
      scale. */
  lemma ScaledStep(amount: int, s: int, hit: bool, before: int, mid: int, after: int, rest: int)
    requires mid == before + (if hit then s * amount else 0)
    requires after == mid + amount * rest
    ensures after == before + amount * ((if hit then s else 0) + rest)
  {
    if hit {
      assert amount * (s + rest) == s * amount + amount * rest;
    }
  }

  lemma ScaledSum(amount: int, s: int, x: int, y: int)
    ensures amount * (s * x + y) == s * amount * x + amount * y
  {
  }

  /** Applying the steps with `amount` moves every cell by `amount` times
      its net scale on the steps. */
  lemma {:induction false} ApplyStepsCell(t: Table, c: seq<Step>, amount: int, i: int, j: int)
    requires Valid(t) && StepsInBounds(t, c) && InBounds(t, i, j)
    ensures Alloc(ApplySteps(t, c, amount), i, j) == Alloc(t, i, j) + amount * CellSign(c, i, j)
    decreases |c|
  {
    if c != [] {
      var s := c[0];
      var hit := Pos(s) == (i, j);
      var t1 := SetAlloc(t, s.row, s.col, Alloc(t, s.row, s.col) + s.scale * amount);
      assert ApplySteps(t, c, amount) == ApplySteps(t1, c[1..], amount);
      assert CellSign(c, i, j) == (if hit then s.scale else 0) + CellSign(c[1..], i, j);
      ApplyStepsCell(t1, c[1..], amount, i, j);
      ScaledStep(amount, s.scale, hit, Alloc(t, i, j), Alloc(t1, i, j),
        Alloc(ApplySteps(t1, c[1..], amount), i, j), CellSign(c[1..], i, j));
    }
  }

  /** Applying the steps with `amount` lowers a factory's remaining supply
      by `amount` times the net scale of its row. */
  lemma {:induction false} ApplyStepsSupply(t: Table, c: seq<Step>, amount: int, i: int)
    requires Valid(t) && StepsInBounds(t, c) && 0 <= i < |t.factories|
    ensures RemainingSupply(ApplySteps(t, c, amount), i) == RemainingSupply(t, i) - amount * RowSign(c, i)
    decreases |c|
  {
    if c != [] {
      var s := c[0];
      var t1 := SetAlloc(t, s.row, s.col, Alloc(t, s.row, s.col) + s.scale * amount);
      SetAllocSupply(t, s.row, s.col, Alloc(t, s.row, s.col) + s.scale * amount, i);
      assert ApplySteps(t, c, amount) == ApplySteps(t1, c[1..], amount);
      assert RowSign(c, i) == (if s.row == i then s.scale else 0) + RowSign(c[1..], i);
      ApplyStepsSupply(t1, c[1..], amount, i);
      ScaledStep(amount, s.scale, s.row == i, -RemainingSupply(t, i), -RemainingSupply(t1, i),
        -RemainingSupply(ApplySteps(t1, c[1..], amount), i), RowSign(c[1..], i));
    }
  }

  /** Applying the steps with `amount` lowers a warehouse's remaining
      demand by `amount` times the net scale of its column. */
  lemma {:induction false} ApplyStepsDemand(t: Table, c: seq<Step>, amount: int, j: int)
    requires Valid(t) && StepsInBounds(t, c) && 0 <= j < |t.warehouses|
    ensures RemainingDemand(ApplySteps(t, c, amount), j) == RemainingDemand(t, j) - amount * ColSign(c, j)
    decreases |c|
  {
    if c != [] {
      var s := c[0];
      var t1 := SetAlloc(t, s.row, s.col, Alloc(t, s.row, s.col) + s.scale * amount);
      SetAllocDemand(t, s.row, s.col, Alloc(t, s.row, s.col) + s.scale * amount, j);
      assert ApplySteps(t, c, amount) == ApplySteps(t1, c[1..], amount);
      assert ColSign(c, j) == (if s.col == j then s.scale else 0) + ColSign(c[1..], j);
      ApplyStepsDemand(t1, c[1..], amount, j);
      ScaledStep(amount, s.scale, s.col == j, -RemainingDemand(t, j), -RemainingDemand(t1, j),
        -RemainingDemand(ApplySteps(t1, c[1..], amount), j), ColSign(c[1..], j));
    }
  }

  /** Applying the steps with `amount` changes the total cost by `amount`
      times the cycle cost. */
  lemma {:induction false} ApplyStepsCost(t: Table, c: seq<Step>, amount: int)
    requires Valid(t) && StepsInBounds(t, c)
    ensures TotalCost(ApplySteps(t, c, amount)) == TotalCost(t) + amount * SolutionCost(t, c)
    decreases |c|
  {
    if c != [] {
      var s := c[0];
      var t1 := SetAlloc(t, s.row, s.col, Alloc(t, s.row, s.col) + s.scale * amount);
      assert ApplySteps(t, c, amount) == ApplySteps(t1, c[1..], amount);
      SetAllocEffect(t, s.row, s.col, Alloc(t, s.row, s.col) + s.scale * amount);
      ApplyStepsCost(t1, c[1..], amount);
      SolutionCostPrices(t, t1, c[1..]);
      ScaledSum(amount, s.scale, Price(t, s.row, s.col), SolutionCost(t, c[1..]));
    }
  }

  /** A step that takes from its cell: scale -1. */
  predicate Takes(c: seq<Step>, k: int)
    requires 0 <= k < |c|
  {
    c[k].scale == -1
  }

  /** The leaving loop, when every taking step's cell ships something: the
      result is positive once anything was taken, never above the
      accumulator or any taking step's allocation, and it is the
      accumulator or one of those allocations. */
  lemma {:induction false} LeavingFromMinimum(t: Table, c: seq<Step>, acc: int)
    requires Valid(t) && StepsInBounds(t, c) && acc >= 0
    requires forall k :: 0 <= k < |c| && Takes(c, k) ==> Alloc(t, c[k].row, c[k].col) > 0
    ensures var r := LeavingFrom(t, c, acc);
      && r >= 0
      && (acc > 0 ==> 0 < r <= acc)
      && (forall k :: 0 <= k < |c| && Takes(c, k) ==> 0 < r <= Alloc(t, c[k].row, c[k].col))
      && (r == acc || exists k :: 0 <= k < |c| && Takes(c, k) && r == Alloc(t, c[k].row, c[k].col))
  {
    if c != [] {
      var rest := c[1..];
      assert forall k :: 0 <= k < |rest| ==> rest[k] == c[k + 1];
      var acc' := if c[0].scale > 0 then acc
        else var a := Alloc(t, c[0].row, c[0].col); if acc == 0 || a < acc then a else acc;
      LeavingFromMinimum(t, rest, acc');
      var r := LeavingFrom(t, c, acc);
      assert r == LeavingFrom(t, rest, acc');
      if r != acc && r != acc' {
        var k :| 0 <= k < |rest| && Takes(rest, k) && r == Alloc(t, rest[k].row, rest[k].col);
        assert Takes(c, k + 1);
      }
      forall k | 0 <= k < |c| && Takes(c, k)
        ensures 0 < r <= Alloc(t, c[k].row, c[k].col)
      {
        if k > 0 {
          assert Takes(rest, k - 1);
        }
      }
    }
  }

  /** The leaving quantity of a search result is the least allocation
      among its -1 steps, and it is positive. */
  lemma LeavingIsMinimum(t: Table, r0: int, c0: int, c: seq<Step>)
    requires IsCycle(t, r0, c0, c)
    ensures Leaving(t, c) > 0
    ensures forall k :: 0 <= k < |c| && Takes(c, k) ==> Leaving(t, c) <= Alloc(t, c[k].row, c[k].col)
    ensures exists k :: 0 <= k < |c| && Takes(c, k) && Leaving(t, c) == Alloc(t, c[k].row, c[k].col)
  {
    assert Link(c[0], c[1]);
    assert Takes(c, 1);
    LeavingFromMinimum(t, c, 0);
  }

  /** What `optimize` does with an improving search result: the leaving
      quantity is positive, each step's cell moves by exactly its scale
      times the leaving quantity, every other cell keeps its allocation,
      and no allocation becomes negative. */
  lemma ImprovingPivotCells(t: Table, r0: int, c0: int, c: seq<Step>)
    requires IsCycle(t, r0, c0, c) && SolutionCost(t, c) < 0
    ensures var (improved, r) := Optimize(t, c); var amount := Leaving(t, c);
      && improved
      && amount > 0
      && (forall k :: 0 <= k < |c| ==>
            Alloc(r, c[k].row, c[k].col) == Alloc(t, c[k].row, c[k].col) + c[k].scale * amount)
      && (forall i, j :: InBounds(t, i, j) && (forall k :: 0 <= k < |c| ==> Pos(c[k]) != (i, j)) ==>
            Alloc(r, i, j) == Alloc(t, i, j))
      && ((forall i, j :: InBounds(t, i, j) ==> Alloc(t, i, j) >= 0) ==>
            forall i, j :: InBounds(t, i, j) ==> Alloc(r, i, j) >= 0)
  {
    var amount := Leaving(t, c);
    var r := ApplySteps(t, c, amount);
    assert Optimize(t, c) == (true, r);
    LeavingIsMinimum(t, r0, c0, c);
    forall k | 0 <= k < |c|
      ensures Alloc(r, c[k].row, c[k].col) == Alloc(t, c[k].row, c[k].col) + c[k].scale * amount
    {
      ApplyStepsCell(t, c, amount, c[k].row, c[k].col);
      CellSignOnce(c, k);
    }
    forall i, j | InBounds(t, i, j) && (forall k :: 0 <= k < |c| ==> Pos(c[k]) != (i, j))
      ensures Alloc(r, i, j) == Alloc(t, i, j)
    {
      ApplyStepsCell(t, c, amount, i, j);
      CellSignOff(c, i, j);
    }
    if forall i, j :: InBounds(t, i, j) ==> Alloc(t, i, j) >= 0 {
      forall i, j | InBounds(t, i, j)
        ensures Alloc(r, i, j) >= 0
      {
        ApplyStepsCell(t, c, amount, i, j);
        if k :| 0 <= k < |c| && Pos(c[k]) == (i, j) {
          CellSignOnce(c, k);
        } else {
          CellSignOff(c, i, j);
        }
      }
    }
  }

  /** An improving pivot lowers the total cost by exactly minus the cycle
      cost times the leaving quantity. */
  lemma ImprovingPivotCost(t: Table, r0: int, c0: int, c: seq<Step>)
    requires IsCycle(t, r0, c0, c) && SolutionCost(t, c) < 0
    ensures var r := Optimize(t, c).1;
      && TotalCost(r) == TotalCost(t) + SolutionCost(t, c) * Leaving(t, c)
      && TotalCost(r) < TotalCost(t)
  {
    LeavingIsMinimum(t, r0, c0, c);
    ApplyStepsCost(t, c, Leaving(t, c));
    NegativeTimesPositive(SolutionCost(t, c), Leaving(t, c));
  }

  lemma NegativeTimesPositive(a: int, b: int)
    requires a < 0 < b
    ensures a * b < 0
  {
  }

  /** Applying a cycle closed in the row-move branch, with any quantity,
      keeps every factory's remaining supply and every warehouse's
      remaining demand, hence every row and column total. */
  lemma RowClosedPivotKeepsTotals(t: Table, r0: int, c0: int, c: seq<Step>, amount: int)
    requires IsCycle(t, r0, c0, c) && ClosedInRowMove(c0, c)
    ensures var r := ApplySteps(t, c, amount);
      && (forall i :: 0 <= i < |t.factories| ==> RemainingSupply(r, i) == RemainingSupply(t, i))
      && (forall j :: 0 <= j < |t.warehouses| ==> RemainingDemand(r, j) == RemainingDemand(t, j))
  {
    forall i | 0 <= i < |t.factories|
      ensures RemainingSupply(ApplySteps(t, c, amount), i) == RemainingSupply(t, i)
    {
      ApplyStepsSupply(t, c, amount, i);
      RowClosedBalanced(t, r0, c0, c, i, 0);
    }
    forall j | 0 <= j < |t.warehouses|
      ensures RemainingDemand(ApplySteps(t, c, amount), j) == RemainingDemand(t, j)
    {
      ApplyStepsDemand(t, c, amount, j);
      RowClosedBalanced(t, r0, c0, c, 0, j);
    }
  }

  /** Applying a cycle closed in the column-move branch ships `amount` more
      from the start factory and into the start warehouse, and leaves every
      other factory and warehouse as it was. */
  lemma ColumnClosedPivotShifts(t: Table, r0: int, c0: int, c: seq<Step>, amount: int)
    requires IsCycle(t, r0, c0, c) && ClosedInColumnMove(r0, c)
    ensures var r := ApplySteps(t, c, amount);
      && (forall i :: 0 <= i < |t.factories| ==>
            RemainingSupply(r, i) == RemainingSupply(t, i) - (if i == r0 then amount else 0))
      && (forall j :: 0 <= j < |t.warehouses| ==>
            RemainingDemand(r, j) == RemainingDemand(t, j) - (if j == c0 then amount else 0))
  {
    var r := ApplySteps(t, c, amount);
    forall i | 0 <= i < |t.factories|
      ensures RemainingSupply(r, i) == RemainingSupply(t, i) - (if i == r0 then amount else 0)
    {
      ApplyStepsSupply(t, c, amount, i);
      ColumnClosedSigns(t, r0, c0, c, i, 0);
    }
    forall j | 0 <= j < |t.warehouses|
      ensures RemainingDemand(r, j) == RemainingDemand(t, j) - (if j == c0 then amount else 0)
    {
      ApplyStepsDemand(t, c, amount, j);
      ColumnClosedSigns(t, r0, c0, c, 0, j);
    }
  }
}
