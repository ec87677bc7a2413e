/** The steps trace of the search is faithful: applying its steps in order to
    the grid the search started from (a digit for a placement, '.' for an
    undo) yields exactly the grid the search returns. And every placement is
    either taken back by the next step at its cell, or it is never touched
    again and stands in the solved grid. */
module Trace {
  import opened Board
  import opened Solver

  lemma ReplayOne(g: Grid, s: Step)
    requires IsGrid(g) && StepInBounds(s)
    ensures StepsInBounds([s])
    ensures Replay(g, [s]) == SetCell(g, s.row, s.col, s.val)
  {
    assert [s][1..] == [];
  }

  /** A digit written into an empty cell, steps that leave the grid alone,
      and the undo of that digit together leave the grid as it was. */
  lemma ReplayDetour(g: Grid, r: int, c: int, v: int, mid: seq<Step>, rest: seq<Step>)
    requires IsGrid(g) && InBounds(r, c) && g[r][c] == 0 && 1 <= v <= 9
    requires StepsInBounds(mid) && StepsInBounds(rest)
    requires Replay(SetCell(g, r, c, v), mid) == SetCell(g, r, c, v)
    ensures StepsInBounds([Step(r, c, v)] + mid + [Step(r, c, 0)] + rest)
    ensures Replay(g, [Step(r, c, v)] + mid + [Step(r, c, 0)] + rest) == Replay(g, rest)
  {
    var placed := SetCell(g, r, c, v);
    var a := [Step(r, c, v)] + mid;
    ReplayOne(g, Step(r, c, v));
    ReplayOne(placed, Step(r, c, 0));
    ReplayAppend(g, [Step(r, c, v)], mid);
    ReplayAppend(g, a, [Step(r, c, 0)]);
    ReplayAppend(g, a + [Step(r, c, 0)], rest);
    assert SetCell(placed, r, c, 0)[r] == g[r];
    assert SetCell(placed, r, c, 0) == g;
  }

  /** Replaying the trace of `backtrack` from its starting grid gives the grid
      it returns. */
  lemma {:induction false} BacktrackReplay(rules: Rules, st: State, r: int, c: int)
    requires Ready(rules, st) && 0 <= r <= 9 && 0 <= c <= 9
    ensures StepsInBounds(Backtrack(rules, st, r, c).steps)
    ensures Replay(st.grid, Backtrack(rules, st, r, c).steps) == Backtrack(rules, st, r, c).st.grid
    decreases 90 - Pos(r, c), if c == 9 then 1 else 0, 10, 0
  {
    if r == 9 {
    } else if c == 9 {
      BacktrackReplay(rules, st, r + 1, 0);
    } else if st.grid[r][c] != 0 {
      BacktrackReplay(rules, st, r, c + 1);
    } else {
      TryDigitsReplay(rules, st, r, c, 1);
    }
  }

  /** The same for the digit loop: each failed digit contributes a placement,
      the sub-search's steps and an undo, which together leave the grid as it
      was. */
  lemma {:induction false} TryDigitsReplay(rules: Rules, st: State, r: int, c: int, v: int)
    requires Ready(rules, st) && InBounds(r, c) && st.grid[r][c] == 0 && 1 <= v <= 10
    ensures StepsInBounds(TryDigits(rules, st, r, c, v).steps)
    ensures Replay(st.grid, TryDigits(rules, st, r, c, v).steps) == TryDigits(rules, st, r, c, v).st.grid
    decreases 90 - Pos(r, c), 0, 10 - v, 2
  {
    if v == 10 {
    } else if !CanPlace(rules, st, r, c, v) {
      TryDigitsReplay(rules, st, r, c, v + 1);
    } else {
      PlacedReplay(rules, st, r, c, v);
    }
  }

  /** The digit loop's trace when digit v passes `canPlace`. */
  lemma {:induction false} PlacedReplay(rules: Rules, st: State, r: int, c: int, v: int)
    requires Ready(rules, st) && InBounds(r, c) && st.grid[r][c] == 0 && 1 <= v <= 9
    requires CanPlace(rules, st, r, c, v)
    ensures StepsInBounds(TryDigits(rules, st, r, c, v).steps)
    ensures Replay(st.grid, TryDigits(rules, st, r, c, v).steps) == TryDigits(rules, st, r, c, v).st.grid
    decreases 90 - Pos(r, c), 0, 10 - v, 1
  {
    if Backtrack(rules, Place(rules, st, r, c, v), r, c + 1).solved {
      SolvedReplay(rules, st, r, c, v);
    } else {
      FailedReplay(rules, st, r, c, v);
    }
  }

  /** A solved search below: the placement followed by its trace. */
  lemma {:induction false} SolvedReplay(rules: Rules, st: State, r: int, c: int, v: int)
    requires Ready(rules, st) && InBounds(r, c) && st.grid[r][c] == 0 && 1 <= v <= 9
    requires CanPlace(rules, st, r, c, v)
    requires Backtrack(rules, Place(rules, st, r, c, v), r, c + 1).solved
    ensures StepsInBounds(TryDigits(rules, st, r, c, v).steps)
    ensures Replay(st.grid, TryDigits(rules, st, r, c, v).steps) == TryDigits(rules, st, r, c, v).st.grid
    decreases 90 - Pos(r, c), 0, 10 - v, 0
  {
    var placed := Place(rules, st, r, c, v);
    var sub := Backtrack(rules, placed, r, c + 1);
    BacktrackReplay(rules, placed, r, c + 1);
    ReplayOne(st.grid, Step(r, c, v));
    ReplayAppend(st.grid, [Step(r, c, v)], sub.steps);
  }

  /** A failed search below: the placement, its trace and the undo leave the
      grid as it was, and the loop's trace for v + 1 follows. */
  lemma {:induction false} FailedReplay(rules: Rules, st: State, r: int, c: int, v: int)
    requires Ready(rules, st) && InBounds(r, c) && st.grid[r][c] == 0 && 1 <= v <= 9
    requires CanPlace(rules, st, r, c, v)
    requires !Backtrack(rules, Place(rules, st, r, c, v), r, c + 1).solved
    ensures StepsInBounds(TryDigits(rules, st, r, c, v).steps)
    ensures Replay(st.grid, TryDigits(rules, st, r, c, v).steps) == TryDigits(rules, st, r, c, v).st.grid
    decreases 90 - Pos(r, c), 0, 10 - v, 0
  {
    var placed := Place(rules, st, r, c, v);
    var sub := Backtrack(rules, placed, r, c + 1);
    BacktrackReplay(rules, placed, r, c + 1);
    UndoAfterPlace(rules, st, r, c, v);
    TryDigitsReplay(rules, st, r, c, v + 1);
    ReplayDetour(st.grid, r, c, v, sub.steps, TryDigits(rules, st, r, c, v + 1).steps);
  }

  /** Replaying the steps `solveSudoku` returns on the grid it was given
      yields the grid it returns, solved or not. */
  lemma SolveReplay(g: Grid, variant: Variant, cages: seq<Cage>)
    requires IsGrid(g) && CagesInBounds(cages)
    ensures StepsInBounds(SolveSudoku(g, variant, cages).steps)
    ensures Replay(g, SolveSudoku(g, variant, cages).steps) == SolveSudoku(g, variant, cages).grid
  {
    var rules := Rules(variant, cages);
    if Seed(rules, g).Some? {
      BacktrackReplay(rules, Seed(rules, g).value, 0, 0);
    }
  }

  predicate SameCell(s: Step, x: Cell) {
    s.row == x.row && s.col == x.col
  }

  /** The index of the first step at cell x from index j on, or |steps| when
      there is none. */
  function NextAt(steps: seq<Step>, x: Cell, j: int): (k: int)
    requires 0 <= j <= |steps|
    ensures j <= k <= |steps|
    ensures k < |steps| ==> SameCell(steps[k], x)
    ensures forall m | j <= m < k :: !SameCell(steps[m], x)
    decreases |steps| - j
  {
    if j == |steps| || SameCell(steps[j], x) then j else NextAt(steps, x, j + 1)
  }

  /** Step i of the trace, if it writes a digit, is taken back by the next
      step at its cell; when no later step touches that cell, the search was
      solved and the digit stands in the final grid. */
  predicate Resolved(steps: seq<Step>, i: int, final: Grid, solved: bool)
    requires IsGrid(final) && StepsInBounds(steps) && 0 <= i < |steps|
  {
    var s := steps[i];
    s.val != 0 ==>
      var k := NextAt(steps, Cell(s.row, s.col), i + 1);
      if k < |steps| then steps[k] == Step(s.row, s.col, 0)
      else solved && final[s.row][s.col] == s.val
  }

  predicate UndoneOrKept(steps: seq<Step>, final: Grid, solved: bool)
    requires IsGrid(final) && StepsInBounds(steps)
  {
    forall i | 0 <= i < |steps| :: Resolved(steps, i, final, solved)
  }

  /** `NextAt` is the only index with its three properties. */
  lemma {:induction false} NextAtIs(steps: seq<Step>, x: Cell, j: int, k: int)
    requires 0 <= j <= k <= |steps|
    requires k < |steps| ==> SameCell(steps[k], x)
    requires forall m | j <= m < k :: !SameCell(steps[m], x)
    ensures NextAt(steps, x, j) == k
    decreases k - j
  {
    if j < k {
      NextAtIs(steps, x, j + 1, k);
    }
  }

  /** A trace whose placements are resolved stays so behind any prefix. */
  lemma ResolvedShift(a: seq<Step>, b: seq<Step>, final: Grid, solved: bool)
    requires IsGrid(final) && StepsInBounds(a) && StepsInBounds(b)
    requires UndoneOrKept(b, final, solved)
    ensures StepsInBounds(a + b)
    ensures forall i | |a| <= i < |a + b| :: Resolved(a + b, i, final, solved)
  {
    forall i | |a| <= i < |a + b|
      ensures Resolved(a + b, i, final, solved)
    {
      var s := b[i - |a|];
      var x := Cell(s.row, s.col);
      assert Resolved(b, i - |a|, final, solved);
      var k := NextAt(b, x, i - |a| + 1);
      NextAtIs(a + b, x, i + 1, |a| + k);
    }
  }

  /** The placements of a failed trace are undone within it, so they stay
      resolved wherever the trace is embedded. */
  lemma ResolvedInside(p: Step, mid: seq<Step>, u: Step, rest: seq<Step>,
                       f: Grid, final: Grid, solved: bool)
    requires IsGrid(f) && IsGrid(final)
    requires StepInBounds(p) && StepsInBounds(mid) && StepInBounds(u) && StepsInBounds(rest)
    requires UndoneOrKept(mid, f, false)
    ensures StepsInBounds([p] + mid + [u] + rest)
    ensures forall i | 1 <= i <= |mid| :: Resolved([p] + mid + [u] + rest, i, final, solved)
  {
    var all := [p] + mid + [u] + rest;
    forall i | 1 <= i <= |mid|
      ensures Resolved(all, i, final, solved)
    {
      var s := mid[i - 1];
      var x := Cell(s.row, s.col);
      assert Resolved(mid, i - 1, f, false);
      if s.val != 0 {
        var k := NextAt(mid, x, i);
        NextAtIs(all, x, i + 1, 1 + k);
      }
    }
  }

  /** No step of `mid` touches a cell that is filled in g, so after a
      placement there the next step at that cell comes after `mid`. */
  lemma NextAfterUntouched(g: Grid, r: int, c: int, v: int, mid: seq<Step>, tail: seq<Step>)
    requires IsGrid(g) && InBounds(r, c) && g[r][c] != 0 && 0 <= v <= 9
    requires TouchesOnlyEmpty(g, mid) && StepsInBounds(tail)
    requires tail != [] ==> SameCell(tail[0], Cell(r, c))
    ensures NextAt([Step(r, c, v)] + mid + tail, Cell(r, c), 1) == 1 + |mid|
  {
    var all := [Step(r, c, v)] + mid + tail;
    forall m | 1 <= m < 1 + |mid|
      ensures !SameCell(all[m], Cell(r, c))
    {
      assert all[m] == mid[m - 1];
    }
    NextAtIs(all, Cell(r, c), 1, 1 + |mid|);
  }

  /** A placement at a cell the rest of the trace leaves alone, followed by
      a resolved solved trace, stands in the final grid. */
  lemma KeptResolved(g: Grid, r: int, c: int, v: int, mid: seq<Step>, final: Grid)
    requires IsGrid(g) && IsGrid(final) && InBounds(r, c) && 1 <= v <= 9
    requires g[r][c] == v && final[r][c] == v
    requires TouchesOnlyEmpty(g, mid) && UndoneOrKept(mid, final, true)
    ensures StepsInBounds([Step(r, c, v)] + mid)
    ensures UndoneOrKept([Step(r, c, v)] + mid, final, true)
  {
    var all := [Step(r, c, v)] + mid;
    NextAfterUntouched(g, r, c, v, mid, []);
    assert all + [] == all;
    ResolvedShift([Step(r, c, v)], mid, final, true);
    assert Resolved(all, 0, final, true);
  }

  /** A placement, a failed resolved trace that leaves its cell alone, the
      undo, and a resolved trace after it: the whole is resolved. */
  lemma DetourResolved(g: Grid, r: int, c: int, v: int, mid: seq<Step>, f: Grid,
                       rest: seq<Step>, final: Grid, solved: bool)
    requires IsGrid(g) && IsGrid(f) && IsGrid(final) && InBounds(r, c) && 1 <= v <= 9
    requires g[r][c] != 0
    requires TouchesOnlyEmpty(g, mid) && UndoneOrKept(mid, f, false)
    requires StepsInBounds(rest) && UndoneOrKept(rest, final, solved)
    ensures StepsInBounds([Step(r, c, v)] + mid + [Step(r, c, 0)] + rest)
    ensures UndoneOrKept([Step(r, c, v)] + mid + [Step(r, c, 0)] + rest, final, solved)
  {
    var head := [Step(r, c, v)] + mid + [Step(r, c, 0)];
    var all := head + rest;
    NextAfterUntouched(g, r, c, v, mid, [Step(r, c, 0)] + rest);
    assert [Step(r, c, v)] + mid + ([Step(r, c, 0)] + rest) == all;
    assert Resolved(all, 0, final, solved);
    ResolvedInside(Step(r, c, v), mid, Step(r, c, 0), rest, f, final, solved);
    ResolvedShift(head, rest, final, solved);
  }

  /** Every placement in the trace of `backtrack` is taken back by the next
      step at its cell, or stands in the grid of a solved search. */
  lemma {:induction false} BacktrackUndone(rules: Rules, st: State, r: int, c: int)
    requires Ready(rules, st) && 0 <= r <= 9 && 0 <= c <= 9
    ensures StepsInBounds(Backtrack(rules, st, r, c).steps)
    ensures UndoneOrKept(Backtrack(rules, st, r, c).steps, Backtrack(rules, st, r, c).st.grid,
                         Backtrack(rules, st, r, c).solved)
    decreases 90 - Pos(r, c), if c == 9 then 1 else 0, 10, 0
  {
    if r == 9 {
    } else if c == 9 {
      BacktrackUndone(rules, st, r + 1, 0);
    } else if st.grid[r][c] != 0 {
      BacktrackUndone(rules, st, r, c + 1);
    } else {
      TryDigitsUndone(rules, st, r, c, 1);
    }
  }

  /** The same for the digit loop. */
  lemma {:induction false} TryDigitsUndone(rules: Rules, st: State, r: int, c: int, v: int)
    requires Ready(rules, st) && InBounds(r, c) && st.grid[r][c] == 0 && 1 <= v <= 10
    ensures StepsInBounds(TryDigits(rules, st, r, c, v).steps)
    ensures UndoneOrKept(TryDigits(rules, st, r, c, v).steps, TryDigits(rules, st, r, c, v).st.grid,
                         TryDigits(rules, st, r, c, v).solved)
    decreases 90 - Pos(r, c), 0, 10 - v, 2
  {
    if v == 10 {
    } else if !CanPlace(rules, st, r, c, v) {
      TryDigitsUndone(rules, st, r, c, v + 1);
    } else if Backtrack(rules, Place(rules, st, r, c, v), r, c + 1).solved {
      SolvedUndone(rules, st, r, c, v);
    } else {
      FailedUndone(rules, st, r, c, v);
    }
  }

  /** A solved search below: the placement at (r, c) is never touched again
      and stands in the final grid. */
  lemma {:induction false} SolvedUndone(rules: Rules, st: State, r: int, c: int, v: int)
    requires Ready(rules, st) && InBounds(r, c) && st.grid[r][c] == 0 && 1 <= v <= 9
    requires CanPlace(rules, st, r, c, v)
    requires Backtrack(rules, Place(rules, st, r, c, v), r, c + 1).solved
    ensures StepsInBounds(TryDigits(rules, st, r, c, v).steps)
    ensures UndoneOrKept(TryDigits(rules, st, r, c, v).steps, TryDigits(rules, st, r, c, v).st.grid,
                         TryDigits(rules, st, r, c, v).solved)
    decreases 90 - Pos(r, c), 0, 10 - v, 0
  {
    var placed := Place(rules, st, r, c, v);
    var sub := Backtrack(rules, placed, r, c + 1);
    BacktrackUndone(rules, placed, r, c + 1);
    KeptResolved(placed.grid, r, c, v, sub.steps, sub.st.grid);
  }

  /** A failed search below: the placement at (r, c) is taken back by the
      undo step that follows the sub-search's trace. */
  lemma {:induction false} FailedUndone(rules: Rules, st: State, r: int, c: int, v: int)
    requires Ready(rules, st) && InBounds(r, c) && st.grid[r][c] == 0 && 1 <= v <= 9
    requires CanPlace(rules, st, r, c, v)
    requires !Backtrack(rules, Place(rules, st, r, c, v), r, c + 1).solved
    ensures StepsInBounds(TryDigits(rules, st, r, c, v).steps)
    ensures UndoneOrKept(TryDigits(rules, st, r, c, v).steps, TryDigits(rules, st, r, c, v).st.grid,
                         TryDigits(rules, st, r, c, v).solved)
    decreases 90 - Pos(r, c), 0, 10 - v, 0
  {
    var placed := Place(rules, st, r, c, v);
    var sub := Backtrack(rules, placed, r, c + 1);
    UndoAfterPlace(rules, st, r, c, v);
    var rest := TryDigits(rules, st, r, c, v + 1);
    BacktrackUndone(rules, placed, r, c + 1);
    TryDigitsUndone(rules, st, r, c, v + 1);
    DetourResolved(placed.grid, r, c, v, sub.steps, sub.st.grid, rest.steps, rest.st.grid, rest.solved);
  }

  /** Every digit in the trace `solveSudoku` returns is either taken back by
      the next step at its cell, or no later step touches that cell, the
      puzzle was solved and the digit stands in the returned grid. */
  lemma SolveUndone(g: Grid, variant: Variant, cages: seq<Cage>)
    requires IsGrid(g) && CagesInBounds(cages)
    ensures StepsInBounds(SolveSudoku(g, variant, cages).steps)
    ensures UndoneOrKept(SolveSudoku(g, variant, cages).steps, SolveSudoku(g, variant, cages).grid,
                         SolveSudoku(g, variant, cages).solved)
  {
    var rules := Rules(variant, cages);
    if Seed(rules, g).Some? {
      BacktrackUndone(rules, Seed(rules, g).value, 0, 0);
    }
  }
}
