/** What the killer-cage generator promises about the cages it returns, and
    where the generator as written falls short of the solver's rules.

    As written, a cage may hold the same digit twice: cells in different
    rows, columns and boxes can carry one digit in a valid grid, and the
    growing loop never looks at digits. The solver treats a cage as a unit
    in which no digit repeats, so for such cages the grid the cages were cut
    from is not a solution of the killer puzzle. The corrected generator
    refuses a neighbour whose digit the cage already holds; with it, every
    puzzle cut from a generated grid is reported solved. */
module Killer {
  import opened Board
  import opened SeqFacts
  import opened Shuffling
  import opened Solver
  import opened Constraints
  import opened Seeding
  import opened Invariant
  import opened Soundness
  import opened Completeness
  import opened Tally
  import opened Generator
  import opened Puzzle
  import opened Cages

  lemma {:induction false} CellSumIsSum(g: Grid, cells: seq<Cell>)
    requires IsGrid(g) && CellsInBounds(cells)
    ensures CellSum(g, cells) == Sum(Values(g, cells))
  {
    if |cells| > 0 {
      assert CellsInBounds(cells[1..]);
      assert Values(g, cells[1..]) == Values(g, cells)[1..];
      CellSumIsSum(g, cells[1..]);
    }
  }

  /** Rows r..8 of a solution hold 45 per row. */
  lemma {:induction false} RowsSum(rules: Rules, g0: Grid, g: Grid, r: int)
    requires Solution(rules, g0, g) && 0 <= r <= 9
    ensures CellsInBounds(AllCells()[9 * r..])
    ensures CellSum(g, AllCells()[9 * r..]) == 45 * (9 - r)
    decreases 9 - r
  {
    var cs := AllCells()[9 * r..];
    assert CellsInBounds(cs) by {
      forall t | 0 <= t < |cs|
        ensures InBounds(cs[t].row, cs[t].col)
      {
        assert cs[t] == AllCells()[9 * r + t];
      }
    }
    if r < 9 {
      var row, rest := cs[..9], cs[9..];
      assert cs == row + rest;
      assert rest == AllCells()[9 * (r + 1)..];
      assert CellsInBounds(row) && CellsInBounds(rest);
      forall t | 0 <= t < 9
        ensures Pos(row[t].row, row[t].col) == 9 * r + t
      {
        assert row[t] == AllCells()[9 * r + t];
      }
      assert Distinct(row) by {
        forall i, j | 0 <= i < j < 9
          ensures row[i] != row[j]
        {
          assert Pos(row[i].row, row[i].col) != Pos(row[j].row, row[j].col);
        }
      }
      forall t | 0 <= t < 9
        ensures InUnit(rules, RowUnit(r), row[t].row, row[t].col)
      {
        assert Pos(row[t].row, row[t].col) == 9 * r + t;
      }
      SolutionUnitsArePermutations(rules, g0, g, RowUnit(r), row);
      CellSumIsSum(g, row);
      RowsSum(rules, g0, g, r + 1);
      CellSumAppend(g, row, rest);
    }
  }

  /** The digits of a solution add up to 405, nine rows of 45. */
  lemma SolutionTotal(rules: Rules, g0: Grid, g: Grid)
    requires Solution(rules, g0, g)
    ensures CellsInBounds(AllCells())
    ensures CellSum(g, AllCells()) == 405
  {
    RowsSum(rules, g0, g, 0);
    assert AllCells()[9 * 0..] == AllCells();
  }

  /** Cages whose cells are the 81 coordinates, each once, lie in the grid
      and are well formed in the solver's sense. */
  lemma CoverWellFormed(cages: seq<Cage>)
    requires multiset(CageCells(cages)) == multiset(AllCells())
    ensures CellsInBounds(CageCells(cages)) && Distinct(CageCells(cages))
    ensures CagesWellFormed(cages)
  {
    AllCellsFacts();
    var cells := CageCells(cages);
    SamePermutationDistinct(AllCells(), cells);
    forall t | 0 <= t < |cells|
      ensures InBounds(cells[t].row, cells[t].col)
    {
      assert cells[t] in multiset(AllCells());
    }
    CagesWellFormedFromCells(cages);
  }

  /** Such cages hold each cell of the grid exactly once. */
  lemma CoverOnce(cages: seq<Cage>)
    requires multiset(CageCells(cages)) == multiset(AllCells())
    ensures forall r, c | 0 <= r < 9 && 0 <= c < 9 :: multiset(CageCells(cages))[Cell(r, c)] == 1
  {
    AllCellsFacts();
    forall r, c | 0 <= r < 9 && 0 <= c < 9
      ensures multiset(AllCells())[Cell(r, c)] == 1
    {
      AllCellsMember(r, c);
      DistinctOnce(AllCells(), Cell(r, c));
    }
  }

  /** The sums of such cages, each the digits under it, add up to the digits
      of the whole grid. */
  lemma CoverSum(cages: seq<Cage>, solution: Grid, avoidRepeats: bool)
    requires IsGrid(solution) && multiset(CageCells(cages)) == multiset(AllCells())
    requires forall i | 0 <= i < |cages| :: CageShape(cages[i], solution, avoidRepeats)
    ensures CellsInBounds(AllCells())
    ensures TotalSum(cages) == CellSum(solution, AllCells())
  {
    AllCellsFacts();
    CoverWellFormed(cages);
    TotalSumIsCellSum(cages, solution);
    CellSumPermutation(solution, CageCells(cages), AllCells());
  }

  /** What either generator returns: cages covering each of the 81 cells
      exactly once, well formed in the solver's sense, each of the shape
      `CageShape` describes, with sums that add up to the solution's
      digits. */
  lemma CagesCoverGrid(solution: Grid, avoidRepeats: bool, rnd: nat -> nat, k: nat)
    requires IsGrid(solution)
    ensures CellsInBounds(AllCells()) && Distinct(AllCells())
    ensures var cages := BuildCages(AllCells(), solution, avoidRepeats, rnd, k).value;
      && CagesWellFormed(cages)
      && (forall r, c | 0 <= r < 9 && 0 <= c < 9 :: multiset(CageCells(cages))[Cell(r, c)] == 1)
      && (forall i | 0 <= i < |cages| :: CageShape(cages[i], solution, avoidRepeats))
      && TotalSum(cages) == CellSum(solution, AllCells())
  {
    AllCellsFacts();
    BuildCagesShape(AllCells(), solution, avoidRepeats, rnd, k);
    CoverFacts(BuildCages(AllCells(), solution, avoidRepeats, rnd, k).value, solution, avoidRepeats);
  }

  /** The cover facts together, for cages of the generated shape. */
  lemma CoverFacts(cages: seq<Cage>, solution: Grid, avoidRepeats: bool)
    requires IsGrid(solution) && multiset(CageCells(cages)) == multiset(AllCells())
    requires forall i | 0 <= i < |cages| :: CageShape(cages[i], solution, avoidRepeats)
    ensures CagesWellFormed(cages)
    ensures forall r, c | 0 <= r < 9 && 0 <= c < 9 :: multiset(CageCells(cages))[Cell(r, c)] == 1
    ensures CellsInBounds(AllCells()) && TotalSum(cages) == CellSum(solution, AllCells())
  {
    CoverWellFormed(cages);
    CoverOnce(cages);
    CoverSum(cages, solution, avoidRepeats);
  }

  /** `generateKillerCages` as written: a partition of the grid into
      connected cages of 1 to 4 cells whose sums total 405 for a solution. */
  lemma KillerCagesPartition(solution: Grid, rnd: nat -> nat, k: nat)
    requires Solution(ClassicRules(), EmptyGrid(), solution)
    ensures var cages := GenerateKillerCages(solution, rnd, k).value;
      && CagesWellFormed(cages)
      && (forall r, c | 0 <= r < 9 && 0 <= c < 9 :: multiset(CageCells(cages))[Cell(r, c)] == 1)
      && (forall i | 0 <= i < |cages| :: CageShape(cages[i], solution, false))
      && TotalSum(cages) == 405
  {
    AllCellsFacts();
    BuildCagesShape(AllCells(), solution, false, rnd, k);
    CoverFacts(GenerateKillerCages(solution, rnd, k).value, solution, false);
    SolutionTotal(ClassicRules(), EmptyGrid(), solution);
  }

  /** The corrected generator keeps all of that and puts no digit twice in a
      cage. */
  lemma DistinctKillerCagesPartition(solution: Grid, rnd: nat -> nat, k: nat)
    requires Solution(ClassicRules(), EmptyGrid(), solution)
    ensures var cages := GenerateDistinctKillerCages(solution, rnd, k).value;
      && CagesWellFormed(cages)
      && (forall r, c | 0 <= r < 9 && 0 <= c < 9 :: multiset(CageCells(cages))[Cell(r, c)] == 1)
      && (forall i | 0 <= i < |cages| :: CageShape(cages[i], solution, true))
      && (forall i | 0 <= i < |cages| :: DistinctDigits(solution, cages[i].cells))
      && TotalSum(cages) == 405
  {
    AllCellsFacts();
    BuildCagesShape(AllCells(), solution, true, rnd, k);
    CoverFacts(GenerateDistinctKillerCages(solution, rnd, k).value, solution, true);
    SolutionTotal(ClassicRules(), EmptyGrid(), solution);
  }

  /** Two different cells of a cage without repeated digits hold different
      digits. */
  lemma DistinctDigitsApart(solution: Grid, cells: seq<Cell>, x: Cell, y: Cell)
    requires IsGrid(solution) && CellsInBounds(cells) && DistinctDigits(solution, cells)
    requires x in cells && y in cells && x != y
    ensures solution[x.row][x.col] != solution[y.row][y.col]
  {
    var i :| 0 <= i < |cells| && cells[i] == x;
    var j :| 0 <= j < |cells| && cells[j] == y;
    assert Values(solution, cells)[i] != Values(solution, cells)[j];
  }

  /** A full classic solution whose cages hold no repeated digit and carry
      its sums solves any puzzle cut from it under the killer rules. */
  lemma KillerSolution(solution: Grid, cages: seq<Cage>, p: Grid)
    requires Solution(ClassicRules(), EmptyGrid(), solution) && CagesWellFormed(cages)
    requires forall i | 0 <= i < |cages| :: CageShape(cages[i], solution, true)
    requires IsGrid(p) && Keeps(p, solution)
    ensures Solution(Rules(Killer, cages), p, solution)
  {
    var rules := Rules(Killer, cages);
    forall r1, c1, r2, c2 | InBounds(r1, c1) && InBounds(r2, c2) && Peers(rules, r1, c1, r2, c2) && solution[r1][c1] != 0
      ensures solution[r1][c1] != solution[r2][c2]
    {
      var ci := CageIndexOf(cages, r1, c1);
      if ci != -1 && ci == CageIndexOf(cages, r2, c2) {
        DistinctDigitsApart(solution, cages[ci].cells, Cell(r1, c1), Cell(r2, c2));
      } else {
        assert Peers(ClassicRules(), r1, c1, r2, c2);
      }
    }
  }

  /** With the corrected generator, a killer puzzle cut from a generated
      grid is reported solved by the solver, whatever the draws. */
  lemma KillerPuzzleSolvable(clueCount: int, rnd: nat -> nat, k: nat, kc: nat, kp: nat)
    requires clueCount >= 0
    ensures var solution := GenerateFullSolution(rnd, k).value;
      var cages := GenerateDistinctKillerCages(solution, rnd, kc).value;
      var p := MakePuzzle(solution, clueCount, rnd, kp).value.value;
      CagesWellFormed(cages) && SolveSudoku(p, Killer, cages).solved
  {
    var solution := GenerateFullSolution(rnd, k).value;
    var cages := GenerateDistinctKillerCages(solution, rnd, kc).value;
    var p := MakePuzzle(solution, clueCount, rnd, kp).value.value;
    GenerateFullSolutionValid(rnd, k);
    DistinctKillerCagesPartition(solution, rnd, kc);
    PuzzleKeepsSolution(solution, clueCount, rnd, kp);
    KillerSolution(solution, cages, p);
    SolveComplete(p, Killer, cages, solution);
  }
}
