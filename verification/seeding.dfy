/** Mask seeding (src/Solver.js:36-68) fails exactly when a given digit repeats
    in an active unit, and otherwise leaves masks that match the grid.

    The proof follows the scan: after position p the masks hold the digits of
    a grid `h` that keeps the givens of `g` before p and is empty elsewhere. */
module Seeding {
  import opened Board
  import opened Solver
  import opened Constraints

  /** `h` is `g` with every cell at row-major position p or later cleared. */
  predicate IsPrefix(g: Grid, h: Grid, p: int)
    requires IsGrid(g) && IsGrid(h)
  {
    forall r, c | 0 <= r < 9 && 0 <= c < 9 :: h[r][c] == if Pos(r, c) < p then g[r][c] else 0
  }

  /** Grids that agree cell by cell are equal. */
  lemma GridExt(g: Grid, h: Grid)
    requires IsGrid(g) && IsGrid(h)
    requires forall r, c | 0 <= r < 9 && 0 <= c < 9 :: g[r][c] == h[r][c]
    ensures g == h
  {
    forall r | 0 <= r < 9
      ensures g[r] == h[r]
    {
    }
  }

  /** One scan step adds the cell (r, c), if it is given. */
  lemma PrefixStep(g: Grid, h: Grid, r: int, c: int)
    requires IsGrid(g) && IsGrid(h) && InBounds(r, c) && IsPrefix(g, h, Pos(r, c))
    ensures h[r][c] == 0
    ensures g[r][c] == 0 ==> IsPrefix(g, h, Pos(r, c) + 1)
    ensures g[r][c] != 0 ==> IsPrefix(g, SetCell(h, r, c, g[r][c]), Pos(r, c) + 1)
  {
    forall r2, c2 | 0 <= r2 < 9 && 0 <= c2 < 9 && (r2 != r || c2 != c)
      ensures Pos(r2, c2) != Pos(r, c)
    {
    }
  }

  lemma {:induction false} CellSumEmpty(g: Grid, cells: seq<Cell>)
    requires IsGrid(g) && CellsInBounds(cells)
    requires forall r, c | 0 <= r < 9 && 0 <= c < 9 :: g[r][c] == 0
    ensures CellSum(g, cells) == 0
  {
    if |cells| > 0 {
      assert CellsInBounds(cells[1..]);
      CellSumEmpty(g, cells[1..]);
    }
  }

  /** The scan invariant at (r, c): `h` holds the givens before (r, c), the
      masks hold the digits of `h`, and those givens are free of conflicts. */
  ghost predicate Scanned(rules: Rules, st: State, h: Grid, r: int, c: int) {
    && CagesWellFormed(rules.cages) && Ready(rules, st) && IsGrid(h) && 0 <= r <= 9 && 0 <= c <= 9
    && IsPrefix(st.grid, h, Pos(r, c)) && MasksMatch(rules, st, h) && NoConflict(rules, h)
  }

  /** Empty masks match the empty grid the scan starts from. */
  lemma ScanStarts(rules: Rules, g: Grid)
    requires CagesWellFormed(rules.cages) && IsGrid(g)
    ensures Scanned(rules, EmptyMasks(rules, g), EmptyGrid(), 0, 0)
  {
    var h := EmptyGrid();
    forall u
      ensures Digits(rules, h, u) == {}
    {
    }
    forall i | 0 <= i < |rules.cages|
      ensures CellSum(h, rules.cages[i].cells) == 0
    {
      CellSumEmpty(h, rules.cages[i].cells);
    }
  }

  /** A given digit that a peer before it already holds is a conflict of g. */
  lemma ClashIsConflict(rules: Rules, g: Grid, h: Grid, r: int, c: int)
    requires IsGrid(g) && IsGrid(h) && InBounds(r, c) && IsPrefix(g, h, Pos(r, c))
    requires g[r][c] != 0 && Clash(rules, h, r, c, g[r][c])
    ensures !NoConflict(rules, g)
  {
    var v := g[r][c];
    var r2, c2 :| InBounds(r2, c2) && Peers(rules, r, c, r2, c2) && h[r2][c2] == v;
    assert g[r2][c2] == v;
    assert g[r][c] == g[r2][c2];
  }

  /** A given digit that no earlier peer holds extends the scanned grid
      without breaking the mask match or the absence of conflicts. */
  lemma SeedStepKeeps(rules: Rules, st: State, h: Grid, r: int, c: int)
    requires Scanned(rules, st, h, r, c) && r < 9 && c < 9
    requires st.grid[r][c] != 0 && !Taken(rules, st, r, c, st.grid[r][c])
    ensures Scanned(rules, AddMasks(rules, st, r, c, st.grid[r][c]), SetCell(h, r, c, st.grid[r][c]), r, c + 1)
  {
    var v := st.grid[r][c];
    PrefixStep(st.grid, h, r, c);
    TakenIffClash(rules, st, h, r, c, v);
    AddMasksMatch(rules, st, h, r, c, v);
    NoConflictAfterSet(rules, h, r, c, v);
  }

  /** A given digit that clashes with an earlier given stops seeding, and the
      grid does have a conflict. */
  lemma SeedStops(rules: Rules, st: State, h: Grid, r: int, c: int)
    requires Scanned(rules, st, h, r, c) && r < 9 && c < 9
    requires st.grid[r][c] != 0 && Taken(rules, st, r, c, st.grid[r][c])
    ensures SeedFrom(rules, st, r, c) == None
    ensures !NoConflict(rules, st.grid)
  {
    PrefixStep(st.grid, h, r, c);
    TakenIffClash(rules, st, h, r, c, st.grid[r][c]);
    ClashIsConflict(rules, st.grid, h, r, c);
  }

  /** What seeding promises about grid g: it succeeds iff g has no conflict,
      and on success its masks match g. */
  ghost predicate SeedOutcome(rules: Rules, g: Grid, res: Option<State>)
    requires IsGrid(g)
  {
    && (res.Some? <==> NoConflict(rules, g))
    && (res.Some? ==> Ready(rules, res.value) && MasksMatch(rules, res.value, g))
  }

  /** From any point of the scan, the rest of it succeeds iff the whole grid
      is free of conflicts, and then leaves masks that match the grid. */
  lemma {:induction false} SeedFromSpec(rules: Rules, st: State, h: Grid, r: int, c: int)
    requires Scanned(rules, st, h, r, c)
    ensures SeedOutcome(rules, st.grid, SeedFrom(rules, st, r, c))
    decreases 9 - r, 9 - c, 1
  {
    if r == 9 {
      GridExt(st.grid, h);
    } else if c == 9 {
      SeedFromSpec(rules, st, h, r + 1, 0);
    } else if st.grid[r][c] == 0 {
      PrefixStep(st.grid, h, r, c);
      SeedFromSpec(rules, st, h, r, c + 1);
    } else if Taken(rules, st, r, c, st.grid[r][c]) {
      SeedStops(rules, st, h, r, c);
    } else {
      SeedFromGiven(rules, st, h, r, c);
    }
  }

  /** A given digit free of clashes joins the masks and the scan moves on. */
  lemma {:induction false} SeedFromGiven(rules: Rules, st: State, h: Grid, r: int, c: int)
    requires Scanned(rules, st, h, r, c) && r < 9 && c < 9
    requires st.grid[r][c] != 0 && !Taken(rules, st, r, c, st.grid[r][c])
    ensures SeedOutcome(rules, st.grid, SeedFrom(rules, st, r, c))
    decreases 9 - r, 9 - c, 0
  {
    var v := st.grid[r][c];
    var st' := AddMasks(rules, st, r, c, v);
    assert st'.grid == st.grid;
    SeedStepKeeps(rules, st, h, r, c);
    SeedFromSpec(rules, st', SetCell(h, r, c, v), r, c + 1);
  }

  /** Seeding succeeds iff no given digit repeats in a row, column, box,
      diagonal (under Diagonal) or cage; on success the masks hold exactly
      the givens of each unit and each cage's sum of givens. */
  lemma SeedSpec(rules: Rules, g: Grid)
    requires CagesWellFormed(rules.cages) && IsGrid(g)
    ensures Seed(rules, g).Some? <==> NoConflict(rules, g)
    ensures Seed(rules, g).Some? ==> MasksMatch(rules, Seed(rules, g).value, g)
  {
    ScanStarts(rules, g);
    SeedFromSpec(rules, EmptyMasks(rules, g), EmptyGrid(), 0, 0);
  }
}
