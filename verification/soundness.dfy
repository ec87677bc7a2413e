/** Soundness of the search: whatever grid `solveSudoku` reports as solved is
    a solution of the puzzle it was given, and a puzzle whose givens already
    conflict is rejected before any search. */
module Soundness {
  import opened Board
  import opened SeqFacts
  import opened Solver
  import opened Constraints
  import opened Seeding
  import opened Invariant

  /** `backtrack` keeps the search invariant. */
  lemma {:induction false} BacktrackInv(rules: Rules, g0: Grid, st: State, r: int, c: int)
    requires Inv(rules, g0, st) && 0 <= r <= 9 && 0 <= c <= 9
    ensures Inv(rules, g0, Backtrack(rules, st, r, c).st)
    decreases 90 - Pos(r, c), if c == 9 then 1 else 0, 10, 0
  {
    if r == 9 {
    } else if c == 9 {
      BacktrackInv(rules, g0, st, r + 1, 0);
    } else if st.grid[r][c] != 0 {
      BacktrackInv(rules, g0, st, r, c + 1);
    } else {
      TryDigitsInv(rules, g0, st, r, c, 1);
    }
  }

  /** The digit loop keeps the search invariant: every placement it makes
      passes `canPlace`, and every undo restores the state before it. */
  lemma {:induction false} TryDigitsInv(rules: Rules, g0: Grid, st: State, r: int, c: int, v: int)
    requires Inv(rules, g0, st) && InBounds(r, c) && st.grid[r][c] == 0 && 1 <= v <= 10
    ensures Inv(rules, g0, TryDigits(rules, st, r, c, v).st)
    decreases 90 - Pos(r, c), 0, 10 - v, 2
  {
    if v == 10 {
      InvSame(rules, g0, st, TryDigits(rules, st, r, c, v).st);
    } else if !CanPlace(rules, st, r, c, v) {
      TryDigitsInv(rules, g0, st, r, c, v + 1);
      InvSame(rules, g0, TryDigits(rules, st, r, c, v + 1).st, TryDigits(rules, st, r, c, v).st);
    } else {
      PlacedInv(rules, g0, st, r, c, v);
    }
  }

  /** The invariant is about the state alone. */
  lemma InvSame(rules: Rules, g0: Grid, st: State, st': State)
    requires Inv(rules, g0, st) && st' == st
    ensures Inv(rules, g0, st')
  {
  }

  /** The digit loop after a placement `canPlace` allows: a solved search
      below keeps the invariant, and a failed one is undone. */
  lemma {:induction false} PlacedInv(rules: Rules, g0: Grid, st: State, r: int, c: int, v: int)
    requires Inv(rules, g0, st) && InBounds(r, c) && st.grid[r][c] == 0 && 1 <= v <= 9
    requires CanPlace(rules, st, r, c, v)
    ensures Inv(rules, g0, TryDigits(rules, st, r, c, v).st)
    decreases 90 - Pos(r, c), 0, 10 - v, 1
  {
    if Backtrack(rules, Place(rules, st, r, c, v), r, c + 1).solved {
      SolvedBelowInv(rules, g0, st, r, c, v);
    } else {
      FailedBelow(rules, st, r, c, v);
      TryDigitsInv(rules, g0, st, r, c, v + 1);
      InvSame(rules, g0, TryDigits(rules, st, r, c, v + 1).st, TryDigits(rules, st, r, c, v).st);
    }
  }

  /** A placement followed by a failed search below is undone, and the loop
      goes on from the state before it. */
  lemma FailedBelow(rules: Rules, st: State, r: int, c: int, v: int)
    requires Ready(rules, st) && InBounds(r, c) && st.grid[r][c] == 0 && 1 <= v <= 9
    requires CanPlace(rules, st, r, c, v)
    requires !Backtrack(rules, Place(rules, st, r, c, v), r, c + 1).solved
    ensures TryDigits(rules, st, r, c, v).st == TryDigits(rules, st, r, c, v + 1).st
    ensures TryDigits(rules, st, r, c, v).solved == TryDigits(rules, st, r, c, v + 1).solved
  {
    UndoAfterPlace(rules, st, r, c, v);
  }

  /** A placement followed by a solved search below ends the loop solved. */
  lemma SolvedBelow(rules: Rules, st: State, r: int, c: int, v: int)
    requires Ready(rules, st) && InBounds(r, c) && st.grid[r][c] == 0 && 1 <= v <= 9
    requires CanPlace(rules, st, r, c, v)
    requires Backtrack(rules, Place(rules, st, r, c, v), r, c + 1).solved
    ensures TryDigits(rules, st, r, c, v).solved
  {
  }

  /** A placement followed by a solved search below keeps the invariant. */
  lemma {:induction false} SolvedBelowInv(rules: Rules, g0: Grid, st: State, r: int, c: int, v: int)
    requires Inv(rules, g0, st) && InBounds(r, c) && st.grid[r][c] == 0 && 1 <= v <= 9
    requires CanPlace(rules, st, r, c, v)
    requires Backtrack(rules, Place(rules, st, r, c, v), r, c + 1).solved
    ensures Inv(rules, g0, TryDigits(rules, st, r, c, v).st)
    decreases 90 - Pos(r, c), 0, 10 - v, 0
  {
    var placed := Place(rules, st, r, c, v);
    PlaceKeepsInv(rules, g0, st, r, c, v);
    BacktrackInv(rules, g0, placed, r, c + 1);
    InvSame(rules, g0, Backtrack(rules, placed, r, c + 1).st, TryDigits(rules, st, r, c, v).st);
  }

  /** A grid reported as solved is a solution of the puzzle: full, keeping
      every given, with no repeated digit in any active unit, and with every
      cage the solver filled adding up to its target. */
  lemma SolveSound(g: Grid, variant: Variant, cages: seq<Cage>)
    requires IsGrid(g) && CagesWellFormed(cages)
    ensures SolveSudoku(g, variant, cages).solved ==> Solution(Rules(variant, cages), g, SolveSudoku(g, variant, cages).grid)
  {
    var rules := Rules(variant, cages);
    SeedSpec(rules, g);
    var seeded := Seed(rules, g);
    if seeded.Some? {
      var st := seeded.value;
      InvStart(rules, st);
      BacktrackInv(rules, g, st, 0, 0);
    }
  }

  /** Givens that repeat a digit in an active unit make `solveSudoku` return
      at once: unsolved, with no steps and the grid as given. */
  lemma SolveRejectsConflict(g: Grid, variant: Variant, cages: seq<Cage>)
    requires IsGrid(g) && CagesWellFormed(cages)
    ensures !NoConflict(Rules(variant, cages), g) <==> SolveSudoku(g, variant, cages) == Outcome(false, [], g) && Seed(Rules(variant, cages), g).None?
  {
    SeedSpec(Rules(variant, cages), g);
  }

  /** The grid's values at `cells`, in order. */
  function Values(g: Grid, cells: seq<Cell>): (s: seq<int>)
    requires IsGrid(g) && CellsInBounds(cells)
    ensures |s| == |cells|
    ensures forall k | 0 <= k < |cells| :: s[k] == g[cells[k].row][cells[k].col]
  {
    seq(|cells|, k requires 0 <= k < |cells| => g[cells[k].row][cells[k].col])
  }

  /** In a solution every row, column and box holds each digit 1..9 exactly
      once, and so adds up to 45; under Diagonal so does each diagonal. */
  lemma SolutionUnitsArePermutations(rules: Rules, g0: Grid, g: Grid, u: Unit, cells: seq<Cell>)
    requires Solution(rules, g0, g)
    requires |cells| == 9 && Distinct(cells) && CellsInBounds(cells)
    requires || u.RowUnit? || u.ColUnit? || u.BoxUnit?
             || (rules.variant == Diagonal && (u.MainDiag? || u.AntiDiag?))
    requires forall k | 0 <= k < 9 :: InUnit(rules, u, cells[k].row, cells[k].col)
    ensures multiset(Values(g, cells)) == multiset(OneToNine())
    ensures Sum(Values(g, cells)) == 45
  {
    var s := Values(g, cells);
    forall i, j | 0 <= i < j < 9
      ensures s[i] != s[j]
    {
      var a, b := cells[i], cells[j];
      assert a != b;
      assert Peers(rules, a.row, a.col, b.row, b.col);
    }
    NineDistinctDigits(s);
    NineDistinctDigitsSum(s);
  }
}
