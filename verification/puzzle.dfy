/** `makePuzzleFromSolution` of src/App.jsx: shuffle the 81 coordinates and
    blank the first `81 - clueCount` of them in a copy of the solution. */
module Puzzle {
  import opened Board
  import opened SeqFacts
  import opened Solver
  import opened Invariant
  import opened Completeness
  import opened Tally
  import opened Shuffling
  import opened Generator

  /** The removal loop: writes '.' at each coordinate of `cells`. */
  function Clear(g: Grid, cells: seq<Cell>): (h: Grid)
    requires IsGrid(g) && CellsInBounds(cells)
    ensures IsGrid(h)
    ensures forall r, c | 0 <= r < 9 && 0 <= c < 9 :: h[r][c] == if Cell(r, c) in cells then 0 else g[r][c]
    decreases |cells|
  {
    if |cells| == 0 then g
    else
      assert CellsInBounds(cells[1..]);
      var h := Clear(SetCell(g, cells[0].row, cells[0].col, 0), cells[1..]);
      assert forall x :: x in cells <==> x == cells[0] || x in cells[1..];
      h
  }

  /** The removal step of `makePuzzleFromSolution` for a given order of the
      coordinates: blanks the first `81 - clueCount` of them. A clue count
      below 0 asks for more removals than there are cells: reading
      `cells[81]` yields `undefined`, whose destructuring throws, modelled as
      `None`. A clue count above 81 removes nothing. */
  function Blank(solution: Grid, order: seq<Cell>, clueCount: int): (res: Option<Grid>)
    requires IsGrid(solution) && CellsInBounds(order) && |order| == 81
    ensures res.None? <==> clueCount < 0
  {
    var removeCount := 81 - clueCount;
    if removeCount > 81 then None
    else
      var n := if removeCount < 0 then 0 else removeCount;
      Some(Clear(solution, order[..n]))
  }

  /** `makePuzzleFromSolution(solution, clueCount)`: the coordinates in
      row-major order, shuffled with 80 draws, then the removal step. */
  function MakePuzzle(solution: Grid, clueCount: int, rnd: nat -> nat, k: nat): (res: Drawn<Option<Grid>>)
    requires IsGrid(solution)
    ensures res.next == k + 80
    ensures res.value.None? <==> clueCount < 0
  {
    var sh := Shuffle(AllCells(), rnd, k);
    ShuffledCells(rnd, k);
    Drawn(Blank(solution, sh.value, clueCount), sh.next)
  }

  /** The shuffled coordinates are the 81 cells, each once. */
  lemma ShuffledCells(rnd: nat -> nat, k: nat)
    ensures |Shuffle(AllCells(), rnd, k).value| == 81
    ensures CellsInBounds(Shuffle(AllCells(), rnd, k).value)
    ensures Distinct(Shuffle(AllCells(), rnd, k).value)
    ensures multiset(Shuffle(AllCells(), rnd, k).value) == multiset(AllCells())
  {
    var sh := Shuffle(AllCells(), rnd, k).value;
    AllCellsFacts();
    SamePermutationDistinct(AllCells(), sh);
    forall i | 0 <= i < |sh|
      ensures InBounds(sh[i].row, sh[i].col)
    {
      assert sh[i] in multiset(AllCells());
    }
  }

  /** Each cell of the puzzle is either blank or the solution's digit, so the
      solution fills the puzzle; with a clue count of 81 or more nothing is
      blanked. */
  lemma BlankKeepsSolution(solution: Grid, order: seq<Cell>, clueCount: int)
    requires IsGrid(solution) && CellsInBounds(order) && |order| == 81 && clueCount >= 0
    ensures IsGrid(Blank(solution, order, clueCount).value)
    ensures Keeps(Blank(solution, order, clueCount).value, solution)
    ensures forall r, c | 0 <= r < 9 && 0 <= c < 9 ::
      Blank(solution, order, clueCount).value[r][c] in {0, solution[r][c]}
    ensures clueCount >= 81 ==> Blank(solution, order, clueCount).value == solution
  {
    var p := Blank(solution, order, clueCount).value;
    if clueCount >= 81 {
      assert forall r | 0 <= r < 9 :: p[r] == solution[r];
    }
  }

  /** From a full solution, a clue count in [0, 81] and an order without
      repeats, exactly `81 - clueCount` of the listed cells are blank. */
  lemma BlankCount(solution: Grid, order: seq<Cell>, clueCount: int)
    requires IsGrid(solution) && IsFull(solution) && 0 <= clueCount <= 81
    requires CellsInBounds(order) && |order| == 81 && Distinct(order)
    ensures CountEmpty(Blank(solution, order, clueCount).value, order) == 81 - clueCount
  {
    var n := 81 - clueCount;
    var p := Blank(solution, order, clueCount).value;
    assert order == order[..n] + order[n..];
    assert CellsInBounds(order[..n]) && CellsInBounds(order[n..]);
    CountEmptyAppend(p, order[..n], order[n..]);
    CountEmptyUniform(p, order[..n]);
    KeptCellsFilled(solution, order, n);
    CountEmptyUniform(p, order[n..]);
  }

  /** The cells after the removed prefix keep their digits. */
  lemma KeptCellsFilled(solution: Grid, order: seq<Cell>, n: int)
    requires IsGrid(solution) && IsFull(solution) && 0 <= n <= 81
    requires CellsInBounds(order) && |order| == 81 && Distinct(order)
    ensures CellsInBounds(order[..n])
    ensures forall t | 0 <= t < 81 - n :: Clear(solution, order[..n])[order[n..][t].row][order[n..][t].col] != 0
  {
    assert CellsInBounds(order[..n]);
    forall t | n <= t < 81
      ensures Cell(order[t].row, order[t].col) !in order[..n]
    {
      forall u | 0 <= u < n
        ensures order[..n][u] != order[t]
      {
        assert order[u] != order[t];
      }
    }
  }

  /** The puzzle keeps the solution's digits wherever it is not blank. */
  lemma PuzzleKeepsSolution(solution: Grid, clueCount: int, rnd: nat -> nat, k: nat)
    requires IsGrid(solution) && clueCount >= 0
    ensures IsGrid(MakePuzzle(solution, clueCount, rnd, k).value.value)
    ensures Keeps(MakePuzzle(solution, clueCount, rnd, k).value.value, solution)
    ensures clueCount >= 81 ==> MakePuzzle(solution, clueCount, rnd, k).value.value == solution
  {
    ShuffledCells(rnd, k);
    BlankKeepsSolution(solution, Shuffle(AllCells(), rnd, k).value, clueCount);
  }

  /** Whatever the draws, a full solution and a clue count in [0, 81] give
      exactly `81 - clueCount` blanks. */
  lemma PuzzleBlankCount(solution: Grid, clueCount: int, rnd: nat -> nat, k: nat)
    requires IsGrid(solution) && IsFull(solution) && 0 <= clueCount <= 81
    ensures CountEmpty(MakePuzzle(solution, clueCount, rnd, k).value.value, AllCells()) == 81 - clueCount
  {
    var order := Shuffle(AllCells(), rnd, k).value;
    ShuffledCells(rnd, k);
    assert CellsInBounds(AllCells());
    BlankCount(solution, order, clueCount);
    CountEmptyPermutation(Blank(solution, order, clueCount).value, AllCells(), order);
  }

  /** A puzzle cut from a generated grid is reported solved by the classic
      solver: the generated grid is a solution of it. */
  lemma PuzzleSolvable(clueCount: int, rnd: nat -> nat, k: nat)
    requires clueCount >= 0
    ensures SolveSudoku(MakePuzzle(GenerateFullSolution(rnd, k).value, clueCount, rnd, GenerateFullSolution(rnd, k).next).value.value, Classic, []).solved
  {
    var sol := GenerateFullSolution(rnd, k);
    GenerateFullSolutionValid(rnd, k);
    var p := MakePuzzle(sol.value, clueCount, rnd, sol.next).value.value;
    PuzzleKeepsSolution(sol.value, clueCount, rnd, sol.next);
    assert Solution(ClassicRules(), p, sol.value);
    SolveComplete(p, Classic, [], sol.value);
  }
}
