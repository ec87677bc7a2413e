/** A run of the killer-cage generator as written that puts one digit twice
    in a cage. With the first draws below, the first cage grows from (2, 0)
    to (3, 0) and then to (3, 1); cells (2, 0) and (3, 1) share no row,
    column or box, so a valid grid may hold the same digit in both, and the
    solver then rejects the very grid the cages were cut from. */
module Repeats {
  import opened Board
  import opened SeqFacts
  import opened Shuffling
  import opened Solver
  import opened Constraints
  import opened Invariant
  import opened Soundness
  import opened Tally
  import opened Generator
  import opened Cages
  import opened Killer

  /** The draws the run depends on: the start cell is the 19th unassigned
      cell, (2, 0); the size is 3; the first shuffle keeps the order of
      the neighbours of (2, 0); the second frontier draw picks (3, 0), and
      the second shuffle swaps its two neighbours. */
  predicate RepeatDraws(rnd: nat -> nat) {
    rnd(0) == 18 && rnd(1) == 2 && rnd(3) == 2 && rnd(4) == 1 && rnd(5) == 1 && rnd(6) == 0
  }

  /** An oracle with those draws. */
  function Witness(t: nat): nat {
    if t == 0 then 18 else if t == 1 || t == 3 then 2 else if t == 4 || t == 5 then 1 else 0
  }

  /** The open neighbours of (2, 0) once it is in the cage: below, above
      and to the right, in that order. */
  lemma StartNeighbours(r1: seq<Cell>, solution: Grid)
    requires IsGrid(solution) && Cell(3, 0) in r1 && Cell(1, 0) in r1 && Cell(2, 1) in r1
    ensures Neighbours(Cell(2, 0), [Cell(2, 0)], r1, solution, false) == [Cell(3, 0), Cell(1, 0), Cell(2, 1)]
  {
    var cage := [Cell(2, 0)];
    var ds := Around(Cell(2, 0));
    assert ds[3..] == [Cell(2, -1)] && ds[3..][1..] == [];
    assert KeepOpen(ds[3..], cage, r1, solution, false) == [];
    assert ds[2..][1..] == ds[3..];
    assert KeepOpen(ds[2..], cage, r1, solution, false) == [Cell(2, 1)];
    assert ds[1..][1..] == ds[2..];
    assert KeepOpen(ds[1..], cage, r1, solution, false) == [Cell(1, 0), Cell(2, 1)];
  }

  /** The open neighbours of (3, 0) once (2, 0) and (3, 0) are in the cage:
      below and to the right. */
  lemma NextNeighbours(r2: seq<Cell>, solution: Grid)
    requires IsGrid(solution) && Cell(2, 0) !in r2 && Cell(4, 0) in r2 && Cell(3, 1) in r2
    ensures Neighbours(Cell(3, 0), [Cell(2, 0), Cell(3, 0)], r2, solution, false) == [Cell(4, 0), Cell(3, 1)]
  {
    var cage := [Cell(2, 0), Cell(3, 0)];
    var ds := Around(Cell(3, 0));
    assert ds[3..] == [Cell(3, -1)] && ds[3..][1..] == [];
    assert KeepOpen(ds[3..], cage, r2, solution, false) == [];
    assert ds[2..][1..] == ds[3..];
    assert KeepOpen(ds[2..], cage, r2, solution, false) == [Cell(3, 1)];
    assert ds[1..][1..] == ds[2..];
    assert KeepOpen(ds[1..], cage, r2, solution, false) == [Cell(3, 1)];
  }

  /** The draws 2 and 1 at positions 3 and 4 leave three cells in order. */
  lemma FirstShuffle(ns: seq<Cell>, rnd: nat -> nat)
    requires |ns| == 3 && RepeatDraws(rnd)
    ensures Shuffle(ns, rnd, 3).value == ns && Shuffle(ns, rnd, 3).next == 5
  {
    assert forall t | 3 <= t < 5 :: rnd(t) == 5 - t;
    ShuffleDownIdentity(ns, 2, rnd, 3);
  }

  /** The draw 0 at position 6 swaps two cells. */
  lemma SecondShuffle(ns: seq<Cell>, rnd: nat -> nat)
    requires |ns| == 2 && RepeatDraws(rnd)
    ensures Shuffle(ns, rnd, 6).value == [ns[1], ns[0]] && Shuffle(ns, rnd, 6).next == 7
  {
    assert Pick(rnd, 6, 2) == 0;
    assert Swap(ns, 1, 0) == [ns[1], ns[0]];
  }

  /** First pass of the growing loop: (3, 0) joins. */
  lemma FirstJoin(r1: seq<Cell>, solution: Grid, rnd: nat -> nat)
    requires IsGrid(solution) && CellsInBounds(r1) && Distinct(r1) && RepeatDraws(rnd)
    requires Cell(2, 0) !in r1 && Cell(3, 0) in r1 && Cell(1, 0) in r1 && Cell(2, 1) in r1
    ensures Grow([Cell(2, 0)], [Cell(2, 0)], r1, 3, solution, false, rnd, 2)
         == Join([Cell(2, 0)], [Cell(2, 0)], r1, Cell(3, 0), 3, solution, false, rnd, 5)
  {
    StartNeighbours(r1, solution);
    FirstShuffle(Neighbours(Cell(2, 0), [Cell(2, 0)], r1, solution, false), rnd);
  }

  /** Second pass: the frontier draw picks (3, 0), the shuffle puts (3, 1)
      first, and it joins. */
  lemma SecondJoin(r2: seq<Cell>, solution: Grid, rnd: nat -> nat)
    requires IsGrid(solution) && CellsInBounds(r2) && Distinct(r2) && RepeatDraws(rnd)
    requires Cell(2, 0) !in r2 && Cell(3, 0) !in r2 && Cell(4, 0) in r2 && Cell(3, 1) in r2
    ensures Grow([Cell(2, 0), Cell(3, 0)], [Cell(2, 0), Cell(3, 0)], r2, 3, solution, false, rnd, 5)
         == Join([Cell(2, 0), Cell(3, 0)], [Cell(2, 0), Cell(3, 0)], r2, Cell(3, 1), 3, solution, false, rnd, 7)
  {
    var cage := [Cell(2, 0), Cell(3, 0)];
    NextNeighbours(r2, solution);
    SecondShuffle(Neighbours(Cell(3, 0), cage, r2, solution, false), rnd);
    assert Pick(rnd, 5, 2) == 1;
  }

  /** With its third cell the cage has the drawn size and the loop stops. */
  lemma ThirdCell(r2: seq<Cell>, solution: Grid, rnd: nat -> nat)
    requires IsGrid(solution) && CellsInBounds(r2) && Distinct(r2) && Cell(3, 1) in r2
    ensures Join([Cell(2, 0), Cell(3, 0)], [Cell(2, 0), Cell(3, 0)], r2, Cell(3, 1), 3, solution, false, rnd, 7).cage
         == [Cell(2, 0), Cell(3, 0), Cell(3, 1)]
  {
    var cage := [Cell(2, 0), Cell(3, 0)];
    RemoveFacts(r2, Cell(3, 1));
    assert cage + [Cell(3, 1)] == [Cell(2, 0), Cell(3, 0), Cell(3, 1)];
  }

  /** The round starts from (2, 0) with size 3. */
  lemma RoundStart(remaining: seq<Cell>, solution: Grid, rnd: nat -> nat)
    requires IsGrid(solution) && CellsInBounds(remaining) && Distinct(remaining) && RepeatDraws(rnd)
    requires |remaining| == 81 && remaining[18] == Cell(2, 0)
    ensures CellsInBounds(Remove(remaining, Cell(2, 0))) && Distinct(Remove(remaining, Cell(2, 0)))
    ensures Round(remaining, solution, false, rnd, 0)
         == Grow([Cell(2, 0)], [Cell(2, 0)], Remove(remaining, Cell(2, 0)), 3, solution, false, rnd, 2)
  {
    assert Pick(rnd, 0, 81) == 18 && Pick(rnd, 1, 4) == 2;
    RemoveFacts(remaining, Cell(2, 0));
  }

  /** Joining (3, 0) continues the loop from the two-cell cage. */
  lemma JoinSecond(r1: seq<Cell>, solution: Grid, rnd: nat -> nat)
    requires IsGrid(solution) && CellsInBounds(r1) && Distinct(r1) && Cell(3, 0) in r1
    ensures CellsInBounds(Remove(r1, Cell(3, 0))) && Distinct(Remove(r1, Cell(3, 0)))
    ensures Join([Cell(2, 0)], [Cell(2, 0)], r1, Cell(3, 0), 3, solution, false, rnd, 5)
         == Grow([Cell(2, 0), Cell(3, 0)], [Cell(2, 0), Cell(3, 0)], Remove(r1, Cell(3, 0)), 3, solution, false, rnd, 5)
  {
    RemoveFacts(r1, Cell(3, 0));
    assert [Cell(2, 0)] + [Cell(3, 0)] == [Cell(2, 0), Cell(3, 0)];
  }

  /** The first round, from any list of unassigned cells whose 19th is
      (2, 0) and which holds the cells the run visits. */
  lemma FirstRound(remaining: seq<Cell>, solution: Grid, rnd: nat -> nat)
    requires IsGrid(solution) && CellsInBounds(remaining) && Distinct(remaining) && RepeatDraws(rnd)
    requires |remaining| == 81 && remaining[18] == Cell(2, 0)
    requires Cell(3, 0) in remaining && Cell(1, 0) in remaining && Cell(2, 1) in remaining
    requires Cell(4, 0) in remaining && Cell(3, 1) in remaining
    ensures Round(remaining, solution, false, rnd, 0).cage == [Cell(2, 0), Cell(3, 0), Cell(3, 1)]
  {
    var p, q := Cell(2, 0), Cell(3, 0);
    RoundStart(remaining, solution, rnd);
    RemoveMembers(remaining, p);
    var r1 := Remove(remaining, p);
    FirstJoin(r1, solution, rnd);
    JoinSecond(r1, solution, rnd);
    RemoveMembers(r1, q);
    var r2 := Remove(r1, q);
    SecondJoin(r2, solution, rnd);
    ThirdCell(r2, solution, rnd);
  }

  /** The first cage the generator as written returns with these draws. */
  lemma FirstCage(solution: Grid, rnd: nat -> nat)
    requires IsGrid(solution) && RepeatDraws(rnd)
    ensures var cages := GenerateKillerCages(solution, rnd, 0).value;
      |cages| > 0 && cages[0].cells == [Cell(2, 0), Cell(3, 0), Cell(3, 1)]
  {
    AllCellsFacts();
    AllCellsAt(2, 0);
    AllCellsMember(3, 0);
    AllCellsMember(1, 0);
    AllCellsMember(2, 1);
    AllCellsMember(4, 0);
    AllCellsMember(3, 1);
    FirstRound(AllCells(), solution, rnd);
  }

  /** Two cells of one cage holding the same digit: the grid breaks the
      killer rules, and the solver rejects it without a step. */
  lemma RepeatConflict(cages: seq<Cage>, solution: Grid, x: Cell, y: Cell)
    requires IsGrid(solution) && CagesWellFormed(cages) && |cages| > 0
    requires x in cages[0].cells && y in cages[0].cells && x != y
    requires InBounds(x.row, x.col) && InBounds(y.row, y.col)
    requires solution[x.row][x.col] == solution[y.row][y.col] != 0
    ensures !NoConflict(Rules(Killer, cages), solution)
    ensures SolveSudoku(solution, Killer, cages) == Outcome(false, [], solution)
  {
    SameCage(cages, x);
    SameCage(cages, y);
    assert Peers(Rules(Killer, cages), x.row, x.col, y.row, y.col);
    SolveRejectsConflict(solution, Killer, cages);
  }

  /** `generateKillerCages` as written, with these draws, makes a first
      cage of (2, 0), (3, 0) and (3, 1); when the grid holds one digit at
      (2, 0) and (3, 1), the cage repeats it, the grid breaks the killer
      rules, and the solver rejects it without a step. */
  lemma KillerCagesMayRepeat(solution: Grid, rnd: nat -> nat)
    requires IsGrid(solution) && RepeatDraws(rnd)
    ensures var cages := GenerateKillerCages(solution, rnd, 0).value;
      && CagesWellFormed(cages)
      && |cages| > 0 && cages[0].cells == [Cell(2, 0), Cell(3, 0), Cell(3, 1)]
      && (solution[2][0] == solution[3][1] != 0 ==>
            && !NoConflict(Rules(Killer, cages), solution)
            && SolveSudoku(solution, Killer, cages) == Outcome(false, [], solution))
  {
    var cages := GenerateKillerCages(solution, rnd, 0).value;
    FirstCage(solution, rnd);
    assert CagesWellFormed(cages) by { CoverWellFormed(cages); }
    FirstCageRepeats(cages, solution);
  }

  /** Cages led by that cage put (2, 0) and (3, 1) together. */
  lemma FirstCageRepeats(cages: seq<Cage>, solution: Grid)
    requires IsGrid(solution) && CagesWellFormed(cages)
    requires |cages| > 0 && cages[0].cells == [Cell(2, 0), Cell(3, 0), Cell(3, 1)]
    ensures solution[2][0] == solution[3][1] != 0 ==>
      && !NoConflict(Rules(Killer, cages), solution)
      && SolveSudoku(solution, Killer, cages) == Outcome(false, [], solution)
  {
    if solution[2][0] == solution[3][1] != 0 {
      RepeatConflict(cages, solution, Cell(2, 0), Cell(3, 1));
    }
  }

  /** In well formed cages, a cell of the first cage is owned by it. */
  lemma SameCage(cages: seq<Cage>, x: Cell)
    requires CagesWellFormed(cages) && |cages| > 0 && x in cages[0].cells
    ensures CageIndexOf(cages, x.row, x.col) == 0
  {
  }

  /** Such draws exist. */
  lemma WitnessDraws()
    ensures RepeatDraws(Witness)
  {
  }

  /** Any valid full grid with one digit at (2, 0) and (3, 1) admits, with
      the cages cut from it, no killer puzzle it solves, whatever the
      clues, and the solver rejects it. */
  lemma RepeatRejected(solution: Grid, rnd: nat -> nat)
    requires Solution(ClassicRules(), EmptyGrid(), solution) && solution[2][0] == solution[3][1]
    requires RepeatDraws(rnd)
    ensures var cages := GenerateKillerCages(solution, rnd, 0).value;
      && CagesWellFormed(cages)
      && (forall p | IsGrid(p) :: !Solution(Rules(Killer, cages), p, solution))
      && !SolveSudoku(solution, Killer, cages).solved
  {
    KillerCagesMayRepeat(solution, rnd);
  }

  /** Such grids exist: the pattern grid is valid and holds 7 at both
      (2, 0) and (3, 1), which share no row, column or box. */
  lemma PatternGridRepeats()
    ensures Solution(ClassicRules(), EmptyGrid(), PatternGrid())
    ensures PatternGrid()[2][0] == PatternGrid()[3][1] == 7
    ensures BoxIndex(2, 0) != BoxIndex(3, 1)
  {
    EmptyGridSolvable();
  }
}
