/** Completeness of the search: if the puzzle has any solution, `solveSudoku`
    reports it solved. Together with soundness this makes the solver's flag
    exact: solved iff a solution exists.

    The argument follows one solution `goal`: while the search has filled the
    cells before (r, c) as `goal` does, `goal`'s digit at (r, c) passes
    `canPlace`, so the digit loop either succeeds with a smaller digit or
    reaches `goal`'s digit and succeeds from there. */
module Completeness {
  import opened Board
  import opened SeqFacts
  import opened Solver
  import opened Constraints
  import opened Seeding
  import opened Invariant
  import opened Soundness

  /** `g` is `goal` before row-major position p and the puzzle `g0` from p on. */
  predicate Agrees(g0: Grid, goal: Grid, g: Grid, p: int)
    requires IsGrid(g0) && IsGrid(goal) && IsGrid(g)
  {
    forall r, c | 0 <= r < 9 && 0 <= c < 9 :: g[r][c] == if Pos(r, c) < p then goal[r][c] else g0[r][c]
  }

  /** Every digit of `h` appears at the same cell of `g`. */
  predicate Extends(h: Grid, g: Grid)
    requires IsGrid(h) && IsGrid(g)
  {
    forall r, c | 0 <= r < 9 && 0 <= c < 9 && h[r][c] != 0 :: g[r][c] == h[r][c]
  }

  /** Filling the missing cells of `cells` up to `g` adds at least one per
      cell, and nothing when none is missing. */
  lemma {:induction false} DeficitAtLeastGaps(g: Grid, h: Grid, cells: seq<Cell>)
    requires IsGrid(g) && IsGrid(h) && IsFull(g) && Extends(h, g) && CellsInBounds(cells)
    ensures CellSum(g, cells) - CellSum(h, cells) >= CountEmpty(h, cells)
    ensures CountEmpty(h, cells) == 0 ==> CellSum(g, cells) == CellSum(h, cells)
  {
    if |cells| > 0 {
      assert CellsInBounds(cells[1..]);
      DeficitAtLeastGaps(g, h, cells[1..]);
    }
  }

  /** With the empty cell (r, c) among `cells`, the deficit is at least g's
      digit at (r, c) plus one for every other gap, and exactly that digit when
      (r, c) is the only gap. */
  lemma {:induction false} DeficitWithCell(g: Grid, h: Grid, cells: seq<Cell>, r: int, c: int)
    requires IsGrid(g) && IsGrid(h) && IsFull(g) && Extends(h, g)
    requires CellsInBounds(cells) && Distinct(cells) && InBounds(r, c)
    requires Cell(r, c) in cells && h[r][c] == 0
    ensures CellSum(g, cells) - CellSum(h, cells) >= g[r][c] + CountEmpty(h, cells) - 1
    ensures CountEmpty(h, cells) == 1 ==> CellSum(g, cells) - CellSum(h, cells) == g[r][c]
  {
    var rest := cells[1..];
    assert CellsInBounds(rest);
    if cells[0] == Cell(r, c) {
      assert Cell(r, c) !in rest by {
        forall k | 0 <= k < |rest|
          ensures rest[k] != Cell(r, c)
        {
          assert rest[k] == cells[k + 1];
        }
      }
      DeficitAtLeastGaps(g, h, rest);
    } else {
      assert Distinct(rest) by {
        forall i, j | 0 <= i < j < |rest|
          ensures rest[i] != rest[j]
        {
          assert rest[i] == cells[i + 1] && rest[j] == cells[j + 1];
        }
      }
      CountEmptyMember(h, rest, r, c);
      DeficitWithCell(g, h, rest, r, c);
    }
  }

  /** A search grid that agrees with a solution extends it. */
  lemma AgreesExtends(rules: Rules, g0: Grid, goal: Grid, g: Grid, p: int)
    requires Solution(rules, g0, goal) && IsGrid(g) && Agrees(g0, goal, g, p)
    ensures Extends(g, goal)
  {
  }

  /** No digit of the agreeing search grid is a peer of (r, c) holding
      `goal`'s digit there. */
  lemma GoalNotTaken(rules: Rules, g0: Grid, goal: Grid, st: State, r: int, c: int)
    requires Solution(rules, g0, goal) && Inv(rules, g0, st) && InBounds(r, c)
    requires Agrees(g0, goal, st.grid, Pos(r, c)) && st.grid[r][c] == 0
    ensures !Taken(rules, st, r, c, goal[r][c])
  {
    var v := goal[r][c];
    AgreesExtends(rules, g0, goal, st.grid, Pos(r, c));
    TakenIffClash(rules, st, st.grid, r, c, v);
  }

  /** The cage rule admits `goal`'s digit at (r, c): the cage's running sum
      plus that digit closes the cage exactly at its target when (r, c) is its
      last gap, and stays below the target otherwise. */
  lemma GoalAdmitted(rules: Rules, g0: Grid, goal: Grid, st: State, r: int, c: int)
    requires Solution(rules, g0, goal) && Inv(rules, g0, st) && InBounds(r, c)
    requires Agrees(g0, goal, st.grid, Pos(r, c)) && st.grid[r][c] == 0
    requires CageIndexOf(rules.cages, r, c) != -1
    ensures CageAdmits(rules, st, CageIndexOf(rules.cages, r, c), goal[r][c])
  {
    var ci := CageIndexOf(rules.cages, r, c);
    var cells := rules.cages[ci].cells;
    AgreesExtends(rules, g0, goal, st.grid, Pos(r, c));
    assert g0[r][c] == 0;
    CountEmptyMember(g0, cells, r, c);
    DeficitAtLeastGaps(goal, goal, cells);
    assert CellSum(goal, cells) == rules.cages[ci].sum;
    DeficitWithCell(goal, st.grid, cells, r, c);
    CountEmptyMember(st.grid, cells, r, c);
    assert st.cageSum[ci] == CellSum(st.grid, cells);
  }

  /** `goal`'s digit at (r, c) passes `canPlace`. */
  lemma GoalPlaceable(rules: Rules, g0: Grid, goal: Grid, st: State, r: int, c: int)
    requires Solution(rules, g0, goal) && Inv(rules, g0, st) && InBounds(r, c)
    requires Agrees(g0, goal, st.grid, Pos(r, c)) && st.grid[r][c] == 0
    ensures 1 <= goal[r][c] <= 9 && CanPlace(rules, st, r, c, goal[r][c])
  {
    GoalNotTaken(rules, g0, goal, st, r, c);
    if CageIndexOf(rules.cages, r, c) != -1 {
      GoalAdmitted(rules, g0, goal, st, r, c);
    }
  }

  /** Placing `goal`'s digit at (r, c) moves the agreement one cell on. */
  lemma AgreesStep(g0: Grid, goal: Grid, g: Grid, r: int, c: int)
    requires IsGrid(g0) && IsGrid(goal) && IsGrid(g) && InBounds(r, c) && 0 <= goal[r][c] <= 9
    requires Agrees(g0, goal, g, Pos(r, c))
    ensures g[r][c] == g0[r][c]
    ensures g[r][c] == goal[r][c] ==> Agrees(g0, goal, g, Pos(r, c) + 1)
    ensures Agrees(g0, goal, SetCell(g, r, c, goal[r][c]), Pos(r, c) + 1)
  {
    forall r2, c2 | 0 <= r2 < 9 && 0 <= c2 < 9 && (r2 != r || c2 != c)
      ensures Pos(r2, c2) != Pos(r, c)
    {
    }
  }

  /** From a state agreeing with a solution up to (r, c), `backtrack`
      succeeds. */
  lemma {:induction false} BacktrackComplete(rules: Rules, g0: Grid, goal: Grid, st: State, r: int, c: int)
    requires Solution(rules, g0, goal) && Inv(rules, g0, st) && 0 <= r <= 9 && 0 <= c <= 9
    requires Agrees(g0, goal, st.grid, Pos(r, c))
    ensures Backtrack(rules, st, r, c).solved
    decreases 90 - Pos(r, c), if c == 9 then 1 else 0, 10, 0
  {
    if r == 9 {
    } else if c == 9 {
      BacktrackComplete(rules, g0, goal, st, r + 1, 0);
    } else if st.grid[r][c] != 0 {
      AgreesStep(g0, goal, st.grid, r, c);
      BacktrackComplete(rules, g0, goal, st, r, c + 1);
    } else {
      GoalPlaceable(rules, g0, goal, st, r, c);
      TryDigitsComplete(rules, g0, goal, st, r, c, 1);
    }
  }

  /** The digit loop at the empty cell (r, c) succeeds once it starts at or
      below `goal`'s digit there. */
  lemma {:induction false} TryDigitsComplete(rules: Rules, g0: Grid, goal: Grid, st: State, r: int, c: int, v: int)
    requires Solution(rules, g0, goal) && Inv(rules, g0, st) && InBounds(r, c)
    requires Agrees(g0, goal, st.grid, Pos(r, c)) && st.grid[r][c] == 0
    requires 1 <= v <= goal[r][c]
    ensures TryDigits(rules, st, r, c, v).solved
    decreases 90 - Pos(r, c), 0, 10 - v, 1
  {
    GoalPlaceable(rules, g0, goal, st, r, c);
    if !CanPlace(rules, st, r, c, v) {
      TryDigitsComplete(rules, g0, goal, st, r, c, v + 1);
    } else {
      PlacedSucceeds(rules, g0, goal, st, r, c, v);
    }
  }

  /** A digit `canPlace` accepts at or below `goal`'s digit leads to success:
      either it is `goal`'s digit and the search below succeeds, or the loop
      goes on towards it. */
  lemma {:induction false} PlacedSucceeds(rules: Rules, g0: Grid, goal: Grid, st: State, r: int, c: int, v: int)
    requires Solution(rules, g0, goal) && Inv(rules, g0, st) && InBounds(r, c)
    requires Agrees(g0, goal, st.grid, Pos(r, c)) && st.grid[r][c] == 0
    requires 1 <= v <= goal[r][c] && CanPlace(rules, st, r, c, v)
    ensures TryDigits(rules, st, r, c, v).solved
    decreases 90 - Pos(r, c), 0, 10 - v, 0
  {
    if v == goal[r][c] {
      GoalSucceeds(rules, g0, goal, st, r, c);
    } else if !Backtrack(rules, Place(rules, st, r, c, v), r, c + 1).solved {
      FailedBelow(rules, st, r, c, v);
      TryDigitsComplete(rules, g0, goal, st, r, c, v + 1);
    }
  }

  /** Placing `goal`'s digit keeps the state on track to `goal`, so the
      search below succeeds. */
  lemma GoalSucceeds(rules: Rules, g0: Grid, goal: Grid, st: State, r: int, c: int)
    requires Solution(rules, g0, goal) && Inv(rules, g0, st) && InBounds(r, c)
    requires Agrees(g0, goal, st.grid, Pos(r, c)) && st.grid[r][c] == 0
    requires 1 <= goal[r][c] <= 9 && CanPlace(rules, st, r, c, goal[r][c])
    ensures TryDigits(rules, st, r, c, goal[r][c]).solved
    decreases 90 - Pos(r, c), 0, 0, 0
  {
    var v := goal[r][c];
    var placed := Place(rules, st, r, c, v);
    PlaceKeepsInv(rules, g0, st, r, c, v);
    AgreesStep(g0, goal, st.grid, r, c);
    BacktrackComplete(rules, g0, goal, placed, r, c + 1);
    SolvedBelow(rules, st, r, c, v);
  }

  /** A puzzle with a solution is reported solved. */
  lemma SolveComplete(g: Grid, variant: Variant, cages: seq<Cage>, goal: Grid)
    requires CagesWellFormed(cages) && Solution(Rules(variant, cages), g, goal)
    ensures SolveSudoku(g, variant, cages).solved
  {
    var rules := Rules(variant, cages);
    AgreesExtends(rules, g, goal, g, 0);
    assert NoConflict(rules, g) by {
      forall r1, c1, r2, c2 | InBounds(r1, c1) && InBounds(r2, c2) && Peers(rules, r1, c1, r2, c2) && g[r1][c1] != 0
        ensures g[r1][c1] != g[r2][c2]
      {
        assert goal[r1][c1] != goal[r2][c2];
      }
    }
    SeedSpec(rules, g);
    var st := Seed(rules, g).value;
    InvStart(rules, st);
    BacktrackComplete(rules, g, goal, st, 0, 0);
  }

  /** The solver's flag is exact: `solveSudoku` reports solved iff the puzzle
      has a solution, and then returns one. */
  lemma SolveIffSolvable(g: Grid, variant: Variant, cages: seq<Cage>)
    requires IsGrid(g) && CagesWellFormed(cages)
    ensures SolveSudoku(g, variant, cages).solved <==> exists goal :: Solution(Rules(variant, cages), g, goal)
  {
    var o := SolveSudoku(g, variant, cages);
    SolveSound(g, variant, cages);
    if o.solved {
      assert Solution(Rules(variant, cages), g, o.grid);
    }
    if exists goal :: Solution(Rules(variant, cages), g, goal) {
      var goal :| Solution(Rules(variant, cages), g, goal);
      SolveComplete(g, variant, cages, goal);
    }
  }
}
