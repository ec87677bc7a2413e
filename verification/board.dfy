/** Shared vocabulary of the puzzle: the 9×9 grid, coordinates, rule variants,
    cages and the steps of a solving trace.

    A cell holds 0 for the empty marker '.' and 1..9 for a digit. */
module Board {

  type Grid = seq<seq<int>>

  datatype Option<T> = None | Some(value: T)

  /** A coordinate (row, column). */
  datatype Cell = Cell(row: int, col: int)

  datatype Variant = Classic | Diagonal | Killer

  /** A cage: an ordered list of coordinates and its target sum. */
  datatype Cage = Cage(cells: seq<Cell>, sum: int)

  /** One mutation of the grid during search: `val` is written at (row, col);
      0 records an undo. */
  datatype Step = Step(row: int, col: int, val: int)

  predicate InBounds(r: int, c: int) {
    0 <= r < 9 && 0 <= c < 9
  }

  predicate IsGrid(g: Grid) {
    && |g| == 9
    && (forall r | 0 <= r < 9 :: |g[r]| == 9)
    && (forall r, c | 0 <= r < 9 && 0 <= c < 9 :: 0 <= g[r][c] <= 9)
  }

  /** Every cell holds a digit. */
  predicate IsFull(g: Grid)
    requires IsGrid(g)
  {
    forall r, c | 0 <= r < 9 && 0 <= c < 9 :: g[r][c] != 0
  }

  /** Index of the 3×3 box holding (r, c), numbered row-major. */
  function BoxIndex(r: int, c: int): (b: int)
    requires InBounds(r, c)
    ensures 0 <= b < 9
  {
    (r / 3) * 3 + c / 3
  }

  /** Row-major position of (r, c). */
  function Pos(r: int, c: int): int {
    9 * r + c
  }

  /** The grid with every cell empty. */
  function EmptyGrid(): (g: Grid)
    ensures IsGrid(g)
    ensures forall r, c | 0 <= r < 9 && 0 <= c < 9 :: g[r][c] == 0
  {
    var row := [0, 0, 0, 0, 0, 0, 0, 0, 0];
    [row, row, row, row, row, row, row, row, row]
  }

  function SetCell(g: Grid, r: int, c: int, v: int): (g': Grid)
    requires IsGrid(g) && InBounds(r, c) && 0 <= v <= 9
    ensures IsGrid(g')
    ensures g'[r][c] == v
    ensures forall r2, c2 | InBounds(r2, c2) && (r2 != r || c2 != c) :: g'[r2][c2] == g[r2][c2]
  {
    g[r := g[r][c := v]]
  }

  /** The 81 coordinates in the row-major order of the nested
      `for r … for c …` loops. */
  function AllCells(): (cs: seq<Cell>)
    ensures |cs| == 81
    ensures forall k | 0 <= k < 81 :: InBounds(cs[k].row, cs[k].col) && Pos(cs[k].row, cs[k].col) == k
  {
    seq(81, k requires 0 <= k < 81 => Cell(k / 9, k % 9))
  }

  predicate CellsInBounds(cells: seq<Cell>) {
    forall i | 0 <= i < |cells| :: InBounds(cells[i].row, cells[i].col)
  }

  /** Sum of the grid's values over `cells` (empty cells add 0). */
  function CellSum(g: Grid, cells: seq<Cell>): int
    requires IsGrid(g) && CellsInBounds(cells)
  {
    if |cells| == 0 then 0 else g[cells[0].row][cells[0].col] + CellSum(g, cells[1..])
  }

  /** Number of empty cells among `cells`. */
  function CountEmpty(g: Grid, cells: seq<Cell>): nat
    requires IsGrid(g) && CellsInBounds(cells)
  {
    if |cells| == 0 then 0
    else (if g[cells[0].row][cells[0].col] == 0 then 1 else 0) + CountEmpty(g, cells[1..])
  }

  /** A step the grid can take: in bounds, writing '.' or a digit. */
  predicate StepInBounds(s: Step) {
    InBounds(s.row, s.col) && 0 <= s.val <= 9
  }

  predicate StepsInBounds(steps: seq<Step>) {
    forall i | 0 <= i < |steps| :: StepInBounds(steps[i])
  }

  /** No step of the trace addresses (r, c). */
  predicate Untouched(steps: seq<Step>, r: int, c: int) {
    forall i | 0 <= i < |steps| :: steps[i].row != r || steps[i].col != c
  }

  /** Applies the steps of a trace to `g` in order; a cell no step
      addresses keeps its value. */
  function Replay(g: Grid, steps: seq<Step>): (g': Grid)
    requires IsGrid(g) && StepsInBounds(steps)
    ensures IsGrid(g')
    ensures forall r, c | InBounds(r, c) && Untouched(steps, r, c) :: g'[r][c] == g[r][c]
    decreases |steps|
  {
    if |steps| == 0 then g
    else Replay(SetCell(g, steps[0].row, steps[0].col, steps[0].val), steps[1..])
  }

  /** Replaying a concatenation is replaying its halves one after the other. */
  lemma {:induction false} ReplayAppend(g: Grid, a: seq<Step>, b: seq<Step>)
    requires IsGrid(g) && StepsInBounds(a) && StepsInBounds(b)
    ensures StepsInBounds(a + b)
    ensures Replay(g, a + b) == Replay(Replay(g, a), b)
    decreases |a|
  {
    if |a| > 0 {
      assert (a + b)[1..] == a[1..] + b;
      ReplayAppend(SetCell(g, a[0].row, a[0].col, a[0].val), a[1..], b);
    } else {
      assert a + b == b;
    }
  }

  /** The last step at a cell decides what the cell holds after the replay:
      a step s that no later step overrides leaves s.val at (s.row, s.col). */
  lemma ReplayLastWrite(g: Grid, a: seq<Step>, s: Step, b: seq<Step>)
    requires IsGrid(g) && StepsInBounds(a) && StepInBounds(s) && StepsInBounds(b)
    requires Untouched(b, s.row, s.col)
    ensures StepsInBounds(a + [s] + b)
    ensures Replay(g, a + [s] + b)[s.row][s.col] == s.val
  {
    assert StepsInBounds([s]);
    ReplayAppend(g, a, [s]);
    ReplayAppend(g, a + [s], b);
    var mid := Replay(g, a);
    assert [s][1..] == [];
    assert Replay(mid, [s]) == SetCell(mid, s.row, s.col, s.val);
  }
}
