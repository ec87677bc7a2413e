/** The backtracking solver of src/Solver.js: mask seeding with conflict
    detection, the placement test (including the cage-sum rule), place and
    undo, and the row-major depth-first search that records every placement
    and every undo as a step.

    Masks are digit sets (see module Bitmask): a digit is in `rows[r]` iff its
    bit is set in the source's `rows[r]`. */
module Solver {
  import opened Board
  import opened Bitmask

  /** The rules of one solve call: the variant and the cage list. */
  datatype Rules = Rules(variant: Variant, cages: seq<Cage>)

  predicate CagesInBounds(cages: seq<Cage>) {
    forall i | 0 <= i < |cages| :: CellsInBounds(cages[i].cells)
  }

  /** The cage owning (r, c), or -1: the table built by scanning the cages in
      order, so a later cage listing the same cell wins. */
  function CageIndexOf(cages: seq<Cage>, r: int, c: int): (ci: int)
    ensures -1 <= ci < |cages|
    ensures ci >= 0 ==> Cell(r, c) in cages[ci].cells
    ensures ci >= 0 ==> forall j | ci < j < |cages| :: Cell(r, c) !in cages[j].cells
    ensures ci == -1 ==> forall j | 0 <= j < |cages| :: Cell(r, c) !in cages[j].cells
  {
    if |cages| == 0 then -1
    else if Cell(r, c) in cages[|cages| - 1].cells then |cages| - 1
    else CageIndexOf(cages[..|cages| - 1], r, c)
  }

  /** Grid plus every mask of the search. */
  datatype State = State(
    grid: Grid,
    rows: seq<set<int>>,
    cols: seq<set<int>>,
    boxes: seq<set<int>>,
    diag1: set<int>,
    diag2: set<int>,
    cageUsed: seq<set<int>>,
    cageSum: seq<int>)

  /** The shape every operation needs: a 9×9 grid, nine masks per unit kind,
      one mask and one running sum per cage. */
  predicate Ready(rules: Rules, st: State) {
    && CagesInBounds(rules.cages)
    && IsGrid(st.grid)
    && |st.rows| == 9 && |st.cols| == 9 && |st.boxes| == 9
    && |st.cageUsed| == |rules.cages| && |st.cageSum| == |rules.cages|
  }

  /** Masks of a call before any cell is scanned. */
  function EmptyMasks(rules: Rules, g: Grid): (st: State)
    requires CagesInBounds(rules.cages) && IsGrid(g)
    ensures Ready(rules, st) && st.grid == g
  {
    var n := |rules.cages|;
    State(g, seq(9, _ => {}), seq(9, _ => {}), seq(9, _ => {}), {}, {},
          seq(n, _ => {}), seq(n, _ => 0))
  }

  /** Digit v is already marked in the mask of some active unit holding (r, c):
      its row, column, box, a diagonal under Diagonal, or its cage. */
  predicate Taken(rules: Rules, st: State, r: int, c: int, v: int)
    requires Ready(rules, st) && InBounds(r, c)
  {
    || v in st.rows[r]
    || v in st.cols[c]
    || v in st.boxes[BoxIndex(r, c)]
    || (rules.variant == Diagonal && ((r == c && v in st.diag1) || (r + c == 8 && v in st.diag2)))
    || (var ci := CageIndexOf(rules.cages, r, c); ci != -1 && v in st.cageUsed[ci])
  }

  /** The cage-sum rule: closing the cage's last empty cell must hit the
      target exactly; any earlier placement must stay strictly below it. */
  predicate CageAdmits(rules: Rules, st: State, ci: int, v: int)
    requires Ready(rules, st) && 0 <= ci < |rules.cages|
  {
    var target := rules.cages[ci].sum;
    if CountEmpty(st.grid, rules.cages[ci].cells) == 1 then st.cageSum[ci] + v == target
    else st.cageSum[ci] + v < target
  }

  /** The solver's `canPlace` for digit v (bit v - 1). */
  predicate CanPlace(rules: Rules, st: State, r: int, c: int, v: int)
    requires Ready(rules, st) && InBounds(r, c)
  {
    && !Taken(rules, st, r, c, v)
    && (var ci := CageIndexOf(rules.cages, r, c); ci == -1 || CageAdmits(rules, st, ci, v))
  }

  /** The mask updates of a placement (`|=` on every active unit, and the
      owning cage's running sum). */
  function AddMasks(rules: Rules, st: State, r: int, c: int, v: int): (st': State)
    requires Ready(rules, st) && InBounds(r, c)
    ensures Ready(rules, st') && st'.grid == st.grid
  {
    var b := BoxIndex(r, c);
    var ci := CageIndexOf(rules.cages, r, c);
    var diagonal := rules.variant == Diagonal;
    st.(rows := st.rows[r := st.rows[r] + {v}],
        cols := st.cols[c := st.cols[c] + {v}],
        boxes := st.boxes[b := st.boxes[b] + {v}],
        diag1 := if diagonal && r == c then st.diag1 + {v} else st.diag1,
        diag2 := if diagonal && r + c == 8 then st.diag2 + {v} else st.diag2,
        cageUsed := if ci != -1 then st.cageUsed[ci := st.cageUsed[ci] + {v}] else st.cageUsed,
        cageSum := if ci != -1 then st.cageSum[ci := st.cageSum[ci] + v] else st.cageSum)
  }

  /** Writes v at (r, c) and marks it in every active mask. */
  function Place(rules: Rules, st: State, r: int, c: int, v: int): (st': State)
    requires Ready(rules, st) && InBounds(r, c) && 1 <= v <= 9
    ensures Ready(rules, st')
  {
    AddMasks(rules, st, r, c, v).(grid := SetCell(st.grid, r, c, v))
  }

  /** The undo of the search: clears (r, c) and flips bit v - 1 (`^=`) in
      every active mask, subtracting v from the owning cage's sum. */
  function Undo(rules: Rules, st: State, r: int, c: int, v: int): (st': State)
    requires Ready(rules, st) && InBounds(r, c)
    ensures Ready(rules, st')
  {
    var b := BoxIndex(r, c);
    var ci := CageIndexOf(rules.cages, r, c);
    var diagonal := rules.variant == Diagonal;
    State(SetCell(st.grid, r, c, 0),
          st.rows[r := Toggle(st.rows[r], v)],
          st.cols[c := Toggle(st.cols[c], v)],
          st.boxes[b := Toggle(st.boxes[b], v)],
          if diagonal && r == c then Toggle(st.diag1, v) else st.diag1,
          if diagonal && r + c == 8 then Toggle(st.diag2, v) else st.diag2,
          if ci != -1 then st.cageUsed[ci := Toggle(st.cageUsed[ci], v)] else st.cageUsed,
          if ci != -1 then st.cageSum[ci := st.cageSum[ci] - v] else st.cageSum)
  }

  /** A grid that keeps a placement at (r, c) keeps the grid before it,
      and is filled from (r, c) once it is filled after it. */
  lemma KeepsPlaced(rules: Rules, st: State, r: int, c: int, v: int, g: Grid)
    requires Ready(rules, st) && InBounds(r, c) && 1 <= v <= 9 && st.grid[r][c] == 0
    requires IsGrid(g) && Keeps(Place(rules, st, r, c, v).grid, g)
    ensures Keeps(st.grid, g)
    ensures FilledFrom(g, Pos(r, c + 1)) ==> FilledFrom(g, Pos(r, c))
  {
    assert g[r][c] == v;
  }

  /** A grid that keeps a given digit at (r, c) is filled from (r, c) once
      it is filled after it. */
  lemma KeepsGiven(g: Grid, g': Grid, r: int, c: int)
    requires IsGrid(g) && IsGrid(g') && Keeps(g, g') && InBounds(r, c) && g[r][c] != 0
    ensures FilledFrom(g', Pos(r, c + 1)) ==> FilledFrom(g', Pos(r, c))
  {
    assert g'[r][c] == g[r][c];
  }

  /** Undo exactly reverses a placement that `canPlace` let through: the
      grid cell, every unit mask and the cage mask and sum come back. */
  lemma UndoAfterPlace(rules: Rules, st: State, r: int, c: int, v: int)
    requires Ready(rules, st) && InBounds(r, c) && 1 <= v <= 9
    requires st.grid[r][c] == 0
    requires !Taken(rules, st, r, c, v)
    ensures Undo(rules, Place(rules, st, r, c, v), r, c, v) == st
  {
    var st' := Undo(rules, Place(rules, st, r, c, v), r, c, v);
    var b := BoxIndex(r, c);
    var ci := CageIndexOf(rules.cages, r, c);
    ToggleUndoesAdd(st.rows[r], v);
    ToggleUndoesAdd(st.cols[c], v);
    ToggleUndoesAdd(st.boxes[b], v);
    assert st'.rows == st.rows;
    assert st'.cols == st.cols;
    assert st'.boxes == st.boxes;
    if rules.variant == Diagonal && r == c {
      ToggleUndoesAdd(st.diag1, v);
    }
    if rules.variant == Diagonal && r + c == 8 {
      ToggleUndoesAdd(st.diag2, v);
    }
    if ci != -1 {
      ToggleUndoesAdd(st.cageUsed[ci], v);
      assert st'.cageUsed == st.cageUsed;
      assert st'.cageSum == st.cageSum;
    }
    assert st'.grid[r] == st.grid[r];
    assert st'.grid == st.grid;
  }

  /** Mask seeding from the given cells, the nested row and column scan
      resumed at (r, c): `None` as soon as a given digit is already marked in
      one of its units. */
  function SeedFrom(rules: Rules, st: State, r: int, c: int): (res: Option<State>)
    requires Ready(rules, st) && 0 <= r <= 9 && 0 <= c <= 9
    ensures res.Some? ==> Ready(rules, res.value) && res.value.grid == st.grid
    decreases 9 - r, 9 - c
  {
    if r == 9 then Some(st)
    else if c == 9 then SeedFrom(rules, st, r + 1, 0)
    else
      var v := st.grid[r][c];
      if v == 0 then SeedFrom(rules, st, r, c + 1)
      else if Taken(rules, st, r, c, v) then None
      else SeedFrom(rules, AddMasks(rules, st, r, c, v), r, c + 1)
  }

  function Seed(rules: Rules, g: Grid): (res: Option<State>)
    requires CagesInBounds(rules.cages) && IsGrid(g)
    ensures res.Some? ==> Ready(rules, res.value) && res.value.grid == g
  {
    SeedFrom(rules, EmptyMasks(rules, g), 0, 0)
  }

  /** Result of a search call: success flag, state on return, emitted steps. */
  datatype Search = Search(solved: bool, st: State, steps: seq<Step>)

  /** Every cell at row-major position p or later holds a digit. */
  predicate FilledFrom(g: Grid, p: int)
    requires IsGrid(g)
  {
    forall r, c | 0 <= r < 9 && 0 <= c < 9 && Pos(r, c) >= p :: g[r][c] != 0
  }

  /** The given digits of `g` survive unchanged in `g'`. */
  predicate Keeps(g: Grid, g': Grid)
    requires IsGrid(g) && IsGrid(g')
  {
    forall r, c | 0 <= r < 9 && 0 <= c < 9 && g[r][c] != 0 :: g'[r][c] == g[r][c]
  }

  /** Every step is in bounds and addresses a cell that is empty in `g`. */
  predicate TouchesOnlyEmpty(g: Grid, steps: seq<Step>)
    requires IsGrid(g)
  {
    forall i | 0 <= i < |steps| :: StepInBounds(steps[i]) && g[steps[i].row][steps[i].col] == 0
  }

  /** `backtrack(r, c)`: skip to the next row at c == 9, skip given cells,
      otherwise try the digits at (r, c) in ascending order. */
  function Backtrack(rules: Rules, st: State, r: int, c: int): (res: Search)
    requires Ready(rules, st) && 0 <= r <= 9 && 0 <= c <= 9
    ensures Ready(rules, res.st)
    ensures !res.solved ==> res.st == st
    ensures Keeps(st.grid, res.st.grid)
    ensures res.solved ==> FilledFrom(res.st.grid, Pos(r, c))
    ensures TouchesOnlyEmpty(st.grid, res.steps)
    decreases 90 - Pos(r, c), if c == 9 then 1 else 0, 10
  {
    if r == 9 then Search(true, st, [])
    else if c == 9 then
      var res := Backtrack(rules, st, r + 1, 0);
      assert Pos(r + 1, 0) == Pos(r, c);
      res
    else if st.grid[r][c] != 0 then
      var res := Backtrack(rules, st, r, c + 1);
      KeepsGiven(st.grid, res.st.grid, r, c);
      res
    else TryDigits(rules, st, r, c, 1)
  }

  /** The digit loop of `backtrack` at the empty cell (r, c), from digit v on:
      place, record the step, recurse; on failure record an undo step, undo,
      and go on with v + 1. */
  function TryDigits(rules: Rules, st: State, r: int, c: int, v: int): (res: Search)
    requires Ready(rules, st) && InBounds(r, c) && st.grid[r][c] == 0 && 1 <= v <= 10
    ensures Ready(rules, res.st)
    ensures !res.solved ==> res.st == st
    ensures Keeps(st.grid, res.st.grid)
    ensures res.solved ==> FilledFrom(res.st.grid, Pos(r, c))
    ensures TouchesOnlyEmpty(st.grid, res.steps)
    decreases 90 - Pos(r, c), 0, 10 - v
  {
    if v == 10 then Search(false, st, [])
    else if !CanPlace(rules, st, r, c, v) then TryDigits(rules, st, r, c, v + 1)
    else
      var placed := Place(rules, st, r, c, v);
      var sub := Backtrack(rules, placed, r, c + 1);
      KeepsPlaced(rules, st, r, c, v, sub.st.grid);
      if sub.solved then Search(true, sub.st, [Step(r, c, v)] + sub.steps)
      else
        var undone := Undo(rules, sub.st, r, c, v);
        UndoAfterPlace(rules, st, r, c, v);
        var rest := TryDigits(rules, undone, r, c, v + 1);
        Search(rest.solved, rest.st, [Step(r, c, v)] + sub.steps + [Step(r, c, 0)] + rest.steps)
  }

  /** What `solveSudoku` hands back: the flag, the trace, and the grid it was
      given as it stands when the call returns. */
  datatype Outcome = Outcome(solved: bool, steps: seq<Step>, grid: Grid)

  /** `solveSudoku(grid, variant, cages)`. */
  function SolveSudoku(g: Grid, variant: Variant, cages: seq<Cage>): (o: Outcome)
    requires IsGrid(g) && CagesInBounds(cages)
    ensures IsGrid(o.grid)
    ensures !o.solved ==> o.grid == g
    ensures o.solved ==> IsFull(o.grid)
    ensures Keeps(g, o.grid)
    ensures TouchesOnlyEmpty(g, o.steps)
  {
    var rules := Rules(variant, cages);
    match Seed(rules, g)
    case None => Outcome(false, [], g)
    case Some(st) =>
      var res := Backtrack(rules, st, 0, 0);
      Outcome(res.solved, res.steps, res.st.grid)
  }
}
