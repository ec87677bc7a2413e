/** What a solution is, and the invariant the search keeps between calls:
    masks agree with the grid, no unit repeats a digit, the givens are kept,
    and every cage the search has closed hits its target. */
module Invariant {
  import opened Board
  import opened SeqFacts
  import opened Solver
  import opened Constraints

  /** Every cage that had an empty cell in `g0` and has none left in `g` adds
      up to its target. Cages made only of givens are never checked: the
      solver tests a cage's sum only when a digit is placed in it. */
  predicate CagesClosed(rules: Rules, g0: Grid, g: Grid)
    requires CagesInBounds(rules.cages) && IsGrid(g0) && IsGrid(g)
  {
    forall i | 0 <= i < |rules.cages| ::
      (CountEmpty(g0, rules.cages[i].cells) > 0 && CountEmpty(g, rules.cages[i].cells) == 0)
      ==> CellSum(g, rules.cages[i].cells) == rules.cages[i].sum
  }

  /** `g` solves the puzzle `g0`: full, keeps the givens, no digit repeats in
      an active unit, and every cage the solver fills meets its target. */
  ghost predicate Solution(rules: Rules, g0: Grid, g: Grid) {
    && CagesInBounds(rules.cages) && IsGrid(g0) && IsGrid(g)
    && IsFull(g) && Keeps(g0, g) && NoConflict(rules, g) && CagesClosed(rules, g0, g)
  }

  /** The search invariant for a puzzle `g0` and a search state. */
  ghost predicate Inv(rules: Rules, g0: Grid, st: State) {
    && CagesWellFormed(rules.cages) && Ready(rules, st) && IsGrid(g0)
    && MasksMatch(rules, st, st.grid) && NoConflict(rules, st.grid)
    && Keeps(g0, st.grid) && CagesClosed(rules, g0, st.grid)
  }

  /** The invariant holds once seeding has matched the masks to the givens. */
  lemma InvStart(rules: Rules, st: State)
    requires CagesWellFormed(rules.cages) && Ready(rules, st)
    requires MasksMatch(rules, st, st.grid) && NoConflict(rules, st.grid)
    ensures Inv(rules, st.grid, st)
  {
  }

  /** Only the masks of a state enter `MasksMatch`, so it survives replacing
      the grid. */
  lemma MasksMatchGridFree(rules: Rules, st: State, g': Grid, g: Grid)
    requires Ready(rules, st) && IsGrid(g') && IsGrid(g) && MasksMatch(rules, st, g)
    ensures MasksMatch(rules, st.(grid := g'), g)
  {
  }

  /** A placement `canPlace` allows keeps the masks in step with the grid and
      adds no conflict. */
  lemma PlaceKeepsMasks(rules: Rules, st: State, r: int, c: int, v: int)
    requires CagesWellFormed(rules.cages) && Ready(rules, st)
    requires MasksMatch(rules, st, st.grid) && NoConflict(rules, st.grid)
    requires InBounds(r, c) && st.grid[r][c] == 0 && 1 <= v <= 9 && !Taken(rules, st, r, c, v)
    ensures MasksMatch(rules, Place(rules, st, r, c, v), Place(rules, st, r, c, v).grid)
    ensures NoConflict(rules, Place(rules, st, r, c, v).grid)
  {
    var g' := SetCell(st.grid, r, c, v);
    AddMasksMatch(rules, st, st.grid, r, c, v);
    MasksMatchGridFree(rules, AddMasks(rules, st, r, c, v), g', g');
    TakenIffClash(rules, st, st.grid, r, c, v);
    NoConflictAfterSet(rules, st.grid, r, c, v);
  }

  /** A cell listed in `cells` that is empty makes the count positive. */
  lemma {:induction false} CountEmptyMember(g: Grid, cells: seq<Cell>, r: int, c: int)
    requires IsGrid(g) && CellsInBounds(cells) && InBounds(r, c)
    requires Cell(r, c) in cells && g[r][c] == 0
    ensures CountEmpty(g, cells) > 0
  {
    if cells[0] != Cell(r, c) {
      assert CellsInBounds(cells[1..]);
      CountEmptyMember(g, cells[1..], r, c);
    }
  }

  /** A placement the cage rule allows keeps every closed cage on target. */
  lemma PlaceKeepsCages(rules: Rules, g0: Grid, st: State, r: int, c: int, v: int)
    requires Inv(rules, g0, st)
    requires InBounds(r, c) && st.grid[r][c] == 0 && 1 <= v <= 9 && CanPlace(rules, st, r, c, v)
    ensures CagesClosed(rules, g0, Place(rules, st, r, c, v).grid)
  {
    var g' := SetCell(st.grid, r, c, v);
    var ci := CageIndexOf(rules.cages, r, c);
    forall i | 0 <= i < |rules.cages|
        && CountEmpty(g0, rules.cages[i].cells) > 0 && CountEmpty(g', rules.cages[i].cells) == 0
      ensures CellSum(g', rules.cages[i].cells) == rules.cages[i].sum
    {
      var cells := rules.cages[i].cells;
      CellSumAfterSet(st.grid, cells, r, c, v);
      CageIndexOfMember(rules.cages, r, c, i);
      if Cell(r, c) in cells {
        assert ci == i;
        assert CageAdmits(rules, st, i, v);
      }
    }
  }

  /** A placement `canPlace` allows keeps the search invariant. */
  lemma PlaceKeepsInv(rules: Rules, g0: Grid, st: State, r: int, c: int, v: int)
    requires Inv(rules, g0, st)
    requires InBounds(r, c) && st.grid[r][c] == 0 && 1 <= v <= 9 && CanPlace(rules, st, r, c, v)
    ensures Inv(rules, g0, Place(rules, st, r, c, v))
  {
    PlaceKeepsMasks(rules, st, r, c, v);
    PlaceKeepsCages(rules, g0, st, r, c, v);
  }
}
