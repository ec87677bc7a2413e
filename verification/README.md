# Sudoku solver and puzzle generators, modelled in Dafny

This project models the logic core of a small React Sudoku app. The core has
two parts.

- **`solveSudoku`** (src/Solver.js) takes a 9×9 grid of `'.'` and `'1'`–`'9'`,
  a variant (`Classic`, `Diagonal` or `Killer`) and a list of cages. First it
  seeds digit masks from the given cells. There is one mask per row, column
  and box, one per diagonal under `Diagonal`, and one per cage, plus a
  running sum per cage. If a given digit repeats in one of those units, the
  call stops at once. Otherwise it runs a row-major depth-first search. The
  search tries digits 1 to 9 at each empty cell. The placement test
  `canPlace` rejects a digit already present in a unit of the cell. It also
  applies the cage-sum rule:
  - the cage's last empty cell must bring the sum exactly to the target;
  - any earlier cell must keep the sum strictly below the target.

  Every placement and every undo is recorded as a step.
- **The generators** (src/App.jsx) are four helpers:
  - `shuffle` is a Fisher–Yates permutation;
  - `generateFullSolution` is a randomised backtracking fill of the empty
    grid under the classic rules;
  - `makePuzzleFromSolution` blanks `81 - clueCount` shuffled cells;
  - `generateKillerCages` greedily grows 4-connected cages of 1 to 4 cells
    and sums each cage from the solution.

The model is functional.

- A grid is a `seq<seq<int>>`, with 0 standing for `'.'`.
- The masks are digit sets in an explicit `State` record. Module `Bitmask`
  proves that the source's `|=`, `&` and `^=` on 9-bit masks are set union,
  membership and toggling.
- The search is a pair of mutually recursive functions, `Backtrack` and
  `TryDigits`. They return the success flag, the final state and the trace.
- `Math.random()` is an oracle `rnd: nat -> nat` with a cursor `k`. The k-th
  draw `Math.floor(Math.random() * n)` is `rnd(k) % n`, so every property
  about the generators holds for every sequence of draws.
- The source mutates the grid passed to `solveSudoku`. The model returns that
  grid as it stands when the call ends.

The main results are these.

- **Seeding (`Seeding.SeedSpec`, `Soundness.SolveRejectsConflict`).** Seeding
  succeeds exactly when no given digit repeats in an active unit. When it
  fails, `solveSudoku` returns `{solved: false, steps: []}`.
- **Soundness (`Soundness.SolveSound`).** A grid reported solved is full and
  keeps every given. No active unit repeats a digit, and every cage the
  search closed meets its target.
- **Completeness (`Completeness.SolveComplete`, `Completeness.SolveIffSolvable`).**
  `solved` is true exactly when such a solution exists.
- **Undo (`Solver.UndoAfterPlace`).** An undo exactly reverses its
  placement.
- **Trace (`Trace.SolveReplay`, `Trace.SolveUndone`).** Replaying the trace
  on the input grid gives the final grid. Every digit step is taken back by
  the next step at its cell, unless the puzzle was solved and the digit
  stands in the solution.
- **Full solutions (`Generator.GenerateFullSolutionValid`).**
  `generateFullSolution` always succeeds and returns a valid full grid.
- **Puzzles (`Puzzle.PuzzleBlankCount`, `Puzzle.PuzzleKeepsSolution`).** A
  puzzle has exactly `81 - clueCount` blanks and agrees with its solution
  elsewhere.
- **Cages (`Killer.KillerCagesPartition`).** The killer cages partition the
  grid into connected cages of 1 to 4 cells whose sums total 405.

One discrepancy is recorded under "Findings" below. As written, the cage
generator can put one digit twice into a cage. The puzzle's own solution then
breaks the solver's cage rule. The model also proves the corrected generator
(`Cages.GenerateDistinctKillerCages`) and shows that every killer puzzle built
with it is solved (`Killer.KillerPuzzleSolvable`).

Files, in dependency order:

| file | contents |
|---|---|
| `board.dfy` | the grid, cells, cages, steps and trace replay |
| `bitmask.dfy` | the 9-bit masks and their digit sets |
| `seqfacts.dfy` | distinctness, sums and permutations |
| `shuffle.dfy` | `shuffle` |
| `solver.dfy` | `solveSudoku`: state, `canPlace`, place, undo, seeding, search |
| `constraints.dfy` | units, peers and conflicts; masks that match a grid |
| `tally.dfy` | cell sums and empty-cell counts |
| `seeding.dfy` | what seeding decides |
| `invariant.dfy` | the search invariant |
| `soundness.dfy` | soundness of the search |
| `completeness.dfy` | completeness of the search |
| `trace.dfy` | replaying the trace and pairing each placement with its undo |
| `generator.dfy` | `generateFullSolution` |
| `puzzle.dfy` | `makePuzzleFromSolution` |
| `cages.dfy` | `generateKillerCages`, as written and corrected |
| `killer.dfy` | what the cage generator promises |
| `repeats.dfy` | the cage that repeats a digit |

## Model

| member | source | states |
|---|---|---|
| Bitmask.BitOr | src/Solver.js:114-116 | after `mask \|= 1 << d`, bit e is set exactly when it was set before or e is d |
| Bitmask.BitXor | src/Solver.js:133-135 | after `mask ^= 1 << d`, bit d is flipped and every other bit is unchanged |
| Bitmask.InMembers | src/Solver.js:74-76 | digit x is in a mask's digit set exactly when 1 <= x <= 9 and bit x - 1 is set |
| Bitmask.AndTests | src/Solver.js:74-76 | the bit test `mask & (1 << d)` asks whether digit d + 1 is in the set |
| Bitmask.OrAdds | src/Solver.js:114-116 | `\|=` adds digit d + 1 to the set and changes nothing else |
| Bitmask.OrMember | src/Solver.js:114-116 | membership in the set after `\|=`, digit by digit |
| Bitmask.XorToggles | src/Solver.js:133-135 | `^=` toggles digit d + 1 in the set |
| Bitmask.XorMember | src/Solver.js:133-135 | membership in the set after `^=`, digit by digit |
| Bitmask.XorAfterOrRestores | src/Solver.js:114-135 | `^=` after `\|=` restores the mask whenever the bit was clear before the `\|=`, so the XOR undo acts as a bit clear |
| Board.EmptyGrid | src/App.jsx:6 | `makeEmpty()`: every cell is empty |
| Board.SetCell | src/Solver.js:113 | writing v at (r, c) changes that cell only |
| Board.AllCells | src/App.jsx:66-67 | the coordinate list has 81 in-grid cells, and entry k is the cell at row-major position k |
| Board.ReplayAppend | src/Solver.js:126-131 | replaying two traces one after the other is replaying their concatenation |
| Board.Replay | src/App.jsx:221-239 | `animate` writes each step's value into its cell, in order; a cell that no step addresses keeps its value |
| Board.ReplayLastWrite | src/App.jsx:234-237 | after the replay, a cell holds the value of the last step that addresses it |
| Shuffling.Pick | src/App.jsx:15 | `Math.floor(Math.random() * n)` lies in [0, n) |
| Shuffling.Swap | src/App.jsx:16 | the swap exchanges entries i and j and leaves every other entry |
| Shuffling.SwapPermutes | src/App.jsx:16 | a swap keeps the same elements |
| Shuffling.ShuffleDown | src/App.jsx:14-17 | the countdown loop from i permutes the array and uses i draws |
| Shuffling.Shuffle | src/App.jsx:13-19 | `shuffle` returns a permutation of its input whatever the draws, using n - 1 draws for n > 0 elements |
| Shuffling.ShuffleMembers | src/App.jsx:13-19 | shuffling keeps membership in both directions |
| Shuffling.ShuffleDownIdentity | src/App.jsx:14-17 | if every draw picks j = i, the array comes back unchanged, so the order depends on the draws alone |
| Solver.CageIndexOf | src/Solver.js:20-32 | the owner table gives a cage listing (r, c) that no later cage lists, or -1 when no cage lists it |
| Solver.Taken | src/Solver.js:74-83 | the mask half of `canPlace`: v is marked in the row, column or box mask, in a diagonal mask under Diagonal, or in the owning cage's mask. By `Constraints.TakenIffClash`, against matching masks this holds exactly when a peer of (r, c) in an active unit holds v |
| Solver.CageAdmits | src/Solver.js:84-96 | the cage-sum half of `canPlace`: closing the cage's last empty cell must reach the target exactly, and an earlier cell must keep the sum strictly below it. `Completeness.GoalAdmitted` shows a solution's digit always passes |
| Solver.CanPlace | src/Solver.js:71-99 | `canPlace` is the mask test plus, for a caged cell, the cage-sum rule. It accepts a solution's digit (`Completeness.GoalPlaceable`), and a digit it accepts keeps the search invariant (`Invariant.PlaceKeepsInv`) |
| Solver.AddMasks | src/Solver.js:114-125 | the `\|=` and `cageSum +=` updates leave the grid alone and keep the masks well-shaped. `Constraints.AddMasksMatch` shows they keep each mask equal to its unit's digits |
| Solver.Place | src/Solver.js:113-125 | writing and marking the digit keeps the state well-shaped; `Solver.UndoAfterPlace` shows the undo reverses it exactly |
| Solver.Undo | src/Solver.js:132-143 | clearing the cell and flipping the bit back keeps the state well-shaped; after a placement that `canPlace` allowed it restores the state exactly (`Solver.UndoAfterPlace`) |
| Solver.SeedFrom | src/Solver.js:37-68 | the scan from (r, c) on leaves the grid as given and returns well-shaped masks, or nothing at the first given already marked in a unit; `Seeding.SeedFromSpec` gives its verdict |
| Solver.Seed | src/Solver.js:11-68 | seeding leaves the grid as given and, on success, gives well-shaped masks; `Seeding.SeedSpec` shows it succeeds exactly when no given digit repeats in an active unit |
| Solver.UndoAfterPlace | src/Solver.js:113-143 | undoing a placement that `canPlace` allowed restores the exact state: the cell, the row, column, box and diagonal masks, and the cage mask and sum |
| Solver.Backtrack | src/Solver.js:102-146 | `backtrack` returns false only with the state it started from; given cells are never changed; on true every cell from (r, c) on is filled; every step addresses a cell that was empty on entry |
| Solver.TryDigits | src/Solver.js:109-145 | the digit loop has the same guarantees at an empty cell |
| Solver.SolveSudoku | src/Solver.js:7-150 | an unsolved result leaves the grid as given; a solved grid is full; givens are kept; no step addresses a given cell |
| Seeding.SeedSpec | src/Solver.js:36-68 | seeding succeeds exactly when no given digit repeats in a row, column, box, diagonal (under Diagonal) or cage; on success each mask holds exactly its unit's givens and each cage sum is the sum of the cage's givens |
| Seeding.SeedFromSpec | src/Solver.js:37-68 | from any point of the scan, the rest of the scan succeeds exactly when the whole grid is conflict-free, and then leaves masks matching the grid |
| Seeding.SeedFromGiven | src/Solver.js:40-66 | a given digit with no earlier clash joins the masks and the scan goes on to the same verdict |
| Seeding.SeedStops | src/Solver.js:44-62 | a given digit already marked in one of its masks stops seeding, and the grid really has a repeated digit |
| Seeding.SeedStepKeeps | src/Solver.js:45-64 | adding a clash-free given keeps the masks matched to the cells scanned so far |
| Seeding.ClashIsConflict | src/Solver.js:44-62 | a given that repeats an earlier given of one of its units is a conflict of the grid |
| Seeding.ScanStarts | src/Solver.js:12-32 | the all-zero masks and sums match the empty grid the scan starts from |
| Constraints.CageIndexOfMember | src/Solver.js:25-32 | with disjoint cages, the owner table names cage i exactly for the cells cage i lists |
| Constraints.DigitsAfterSet | src/Solver.js:113-120 | writing v into an empty cell adds v to that cell's units and to no other unit |
| Constraints.CellSumAfterSet | src/Solver.js:86 | writing v into an empty cell of a cage raises its sum by v and lowers its empty count by one, and changes neither for other cages |
| Constraints.TakenIffClash | src/Solver.js:74-83 | against matching masks, the mask test rejects v at (r, c) exactly when a peer of (r, c) holds v |
| Constraints.TakenClash | src/Solver.js:74-83 | a digit marked in a mask of (r, c) is held by a peer |
| Constraints.ClashTaken | src/Solver.js:74-83 | a digit held by a peer is marked in a mask of (r, c) |
| Constraints.NoConflictAfterSet | src/Solver.js:110-113 | writing v into an empty cell keeps the grid conflict-free exactly when no peer holds v |
| Constraints.AddMasksMatch | src/Solver.js:114-125 | the placement's mask updates keep every mask equal to the digits of its unit, and every cage sum equal to the cage's digits |
| Constraints.AddMasksMatchLines | src/Solver.js:114-116 | the same for the row, column and box masks |
| Constraints.AddMasksMatchCages | src/Solver.js:121-125 | the same for the cage masks and sums |
| Invariant.InvStart | src/Solver.js:36-68 | once seeding has matched the masks to the givens, the search invariant holds |
| Invariant.PlaceKeepsMasks | src/Solver.js:110-125 | a placement `canPlace` allows keeps the masks matched and adds no conflict |
| Invariant.PlaceKeepsCages | src/Solver.js:81-97 | a placement the cage rule allows keeps every cage closed by the search on its target |
| Invariant.PlaceKeepsInv | src/Solver.js:110-125 | a placement `canPlace` allows keeps the search invariant |
| Soundness.BacktrackInv | src/Solver.js:102-146 | `backtrack` keeps the search invariant |
| Soundness.TryDigitsInv | src/Solver.js:109-144 | the digit loop keeps the search invariant |
| Soundness.PlacedInv | src/Solver.js:110-143 | one allowed placement, with the search below it and its undo, keeps the invariant |
| Soundness.FailedBelow | src/Solver.js:128-144 | after a failed search below, the loop ends as it would have from the next digit with no placement made |
| Soundness.SolvedBelowInv | src/Solver.js:128 | a solved search below ends the loop in the invariant |
| Soundness.SolveSound | src/Solver.js:71-149 | a grid reported solved is full, keeps every given, repeats no digit in an active unit, and every cage the search closed adds up to its target |
| Soundness.SolveRejectsConflict | src/Solver.js:36-68 | givens repeat a digit in an active unit exactly when seeding fails; `solveSudoku` then returns unsolved with no steps and the grid as given |
| Soundness.SolutionUnitsArePermutations | src/Solver.js:74-80 | in a solution every row, column and box holds each of 1 to 9 exactly once and adds up to 45; under Diagonal so does each diagonal |
| Completeness.DeficitAtLeastGaps | src/Solver.js:86-95 | completing a cage to a full grid adds at least one per empty cell |
| Completeness.DeficitWithCell | src/Solver.js:86-95 | with (r, c) among the gaps, the missing sum is at least the solution's digit there plus one per other gap, and exactly that digit when it is the last gap |
| Completeness.AgreesExtends | src/Solver.js:102-105 | a search grid that agrees with a solution up to a position is extended by it |
| Completeness.GoalNotTaken | src/Solver.js:74-83 | the solution's digit at the current cell is in none of its masks |
| Completeness.GoalAdmitted | src/Solver.js:84-96 | the cage rule admits the solution's digit: exact on the cage's last gap, strictly below the target otherwise |
| Completeness.GoalPlaceable | src/Solver.js:71-99 | `canPlace` accepts the solution's digit at the current cell |
| Completeness.BacktrackComplete | src/Solver.js:102-146 | from a state that agrees with a solution up to (r, c), `backtrack` returns true |
| Completeness.TryDigitsComplete | src/Solver.js:109-144 | the digit loop returns true when it starts at or below the solution's digit |
| Completeness.PlacedSucceeds | src/Solver.js:110-144 | an allowed digit at or below the solution's digit leads to success |
| Completeness.GoalSucceeds | src/Solver.js:113-128 | placing the solution's own digit makes the search below succeed |
| Completeness.SolveComplete | src/Solver.js:7-150 | a puzzle that has a solution is reported solved |
| Completeness.SolveIffSolvable | src/Solver.js:148-149 | `solved` is true exactly when the puzzle has a solution |
| Trace.ReplayDetour | src/Solver.js:126-132 | a placement, steps that leave the grid alone, and the undo step together leave the grid as it was |
| Trace.BacktrackReplay | src/Solver.js:102-146 | replaying the steps of `backtrack` on its start grid gives the grid it ends with |
| Trace.TryDigitsReplay | src/Solver.js:109-144 | the same for the digit loop |
| Trace.PlacedReplay | src/Solver.js:110-143 | the same for one allowed placement |
| Trace.SolvedReplay | src/Solver.js:126-128 | after a solved search below, the trace is the placement followed by that search's trace |
| Trace.FailedReplay | src/Solver.js:126-143 | after a failed search below, the placement, its trace and the undo cancel out |
| Trace.SolveReplay | src/Solver.js:34-149 | replaying the returned steps on the input grid gives the final grid, solved or not |
| Trace.BacktrackUndone | src/Solver.js:102-146 | in the trace of `backtrack`, the next step at the cell of a digit step is the undo `'.'` of that cell; a digit step that no later step touches comes only from a successful search, and the digit stands in the grid it returns |
| Trace.TryDigitsUndone | src/Solver.js:109-144 | the same for the digit loop |
| Trace.SolvedUndone | src/Solver.js:126-128 | when the search below succeeds, the digit just placed is never touched again and stands in the returned grid |
| Trace.FailedUndone | src/Solver.js:126-131 | when the search below fails, the next step at the cell after the digit is its undo step |
| Trace.SolveUndone | src/Solver.js:126-150 | every digit step in the `steps` that `solveSudoku` returns is followed, at the next step at its cell, by that cell's undo; or no later step touches the cell, `solved` is true and the digit stands in the returned grid |
| Generator.ClassicCanPlace | src/App.jsx:28-35 | the generator's `canPlace` is the solver's test under classic rules: v is in none of the row, column and box masks |
| Generator.ShuffledDigits | src/App.jsx:41 | a shuffled digit order holds each of 0 to 8 and nothing else |
| Generator.ShuffledRange | src/App.jsx:41 | any reordering of 0 to 8 holds each of them and nothing else |
| Generator.FindDigit | src/App.jsx:41-42 | every digit index has a place in the shuffled order |
| Generator.Fill | src/App.jsx:37-57 | `helper` returns false only with the state it started from; on true every cell from pos on is filled; earlier cells are kept |
| Generator.FillDigits | src/App.jsx:42-56 | the `for (d of nums)` loop has the same guarantees |
| Generator.FillDigit | src/App.jsx:43-54 | a failed branch clears the cell and the three bits it set, restoring the state before it |
| Generator.PlaceEmptyFrom | src/App.jsx:45 | a placement at pos leaves every later cell empty |
| Generator.FillInv | src/App.jsx:37-57 | `helper` keeps the solver's search invariant under classic rules |
| Generator.FillDigitsInv | src/App.jsx:42-56 | the digit loop keeps it |
| Generator.FillDigitInv | src/App.jsx:43-54 | one allowed digit, with the fill below it and its undo, keeps it |
| Generator.OnTrackEmptyFrom | src/App.jsx:37-40 | a state following a solution of the empty grid is empty from pos on |
| Generator.OnTrackAllows | src/App.jsx:28-35 | `canPlace` accepts the followed solution's digit |
| Generator.OnTrackPlace | src/App.jsx:44-48 | placing that digit stays on track one cell further |
| Generator.FillComplete | src/App.jsx:37-57 | from a state following some full solution, `helper` returns true whatever the draws |
| Generator.FillCompleteAt | src/App.jsx:38-42 | at an empty cell the shuffled order contains the solution's digit, so the loop reaches it |
| Generator.FillDigitsComplete | src/App.jsx:42-55 | the loop succeeds while the solution's digit is still ahead in the order |
| Generator.GoalDigitSucceeds | src/App.jsx:44-49 | placing the solution's own digit and filling on succeeds |
| Generator.PlacedComplete | src/App.jsx:43-53 | an earlier allowed digit either succeeds below or is undone, and the loop moves on |
| Generator.EmptyGridSolvable | src/App.jsx:59 | the empty grid has a classic solution, so `helper(0)` has something to find |
| Generator.GenerateFullSolutionValid | src/App.jsx:22-61 | `helper(0)` returns true for every sequence of draws, and the returned grid is full with each digit once per row, column and box |
| Generator.GenerateFullSolution | src/App.jsx:22-61 | `generateFullSolution` returns a 9×9 grid of digits whatever `helper(0)` reports; `Generator.GenerateFullSolutionValid` shows `helper(0)` always succeeds and the grid is a full classic solution |
| Puzzle.Clear | src/App.jsx:70-73 | the removal loop blanks exactly the listed cells and keeps the others |
| Puzzle.Blank | src/App.jsx:69-74 | the removal step fails (reading past the 81 coordinates) exactly when clueCount < 0 |
| Puzzle.MakePuzzle | src/App.jsx:64-75 | `makePuzzleFromSolution` uses 80 draws and fails exactly when clueCount < 0 |
| Puzzle.ShuffledCells | src/App.jsx:66-68 | the shuffled coordinates are the 81 cells, each once |
| Puzzle.BlankKeepsSolution | src/App.jsx:65-73 | each puzzle cell is blank or the solution's digit; a clue count of 81 or more blanks nothing |
| Puzzle.BlankCount | src/App.jsx:69-73 | with an order without repeats and 0 <= clueCount <= 81, exactly 81 - clueCount listed cells are blank |
| Puzzle.KeptCellsFilled | src/App.jsx:70-73 | the cells after the removed prefix keep their digits |
| Puzzle.PuzzleKeepsSolution | src/App.jsx:64-75 | whatever the draws, every non-blank puzzle cell equals the solution |
| Puzzle.PuzzleBlankCount | src/App.jsx:64-75 | whatever the draws, a full solution and 0 <= clueCount <= 81 give exactly clueCount filled cells |
| Puzzle.PuzzleSolvable | src/App.jsx:281-282 | a classic puzzle cut from a generated grid is reported solved by the solver |
| Cages.AroundTouching | src/App.jsx:82 | the four `dirs` neighbours of f are exactly the cells sharing a side with f |
| Cages.Around | src/App.jsx:82 | the `dirs` offsets give four cells; `Cages.AroundTouching` shows they are exactly the cells sharing a side with f |
| Cages.Neighbours | src/App.jsx:101 | the candidate list holds exactly the cells that share a side with the frontier cell, lie in the grid and are unassigned; for the corrected generator they also hold a digit the cage does not hold yet |
| Cages.KeepOpen | src/App.jsx:101 | the filter keeps exactly the listed cells that are in the grid and unassigned |
| Cages.Remove | src/App.jsx:92 | `remaining.delete(x)` removes every copy of x and keeps the rest |
| Cages.RemoveFacts | src/App.jsx:109 | deleting a present cell from a list without repeats removes exactly that cell |
| Cages.Grow | src/App.jsx:96-110 | the growing loop only extends the cage, never beyond the drawn size, and moves cells from the unassigned list into the cage without losing or duplicating any |
| Cages.Join | src/App.jsx:106-109 | a joining neighbour adds one cell to the cage and takes it from the unassigned list |
| Cages.GrowStart | src/App.jsx:91-95 | the start cell alone is a connected cage with itself as frontier |
| Cages.OpenShrinks | src/App.jsx:101 | a cell the filter accepts for a larger cage it also accepted for the smaller one |
| Cages.JoinKeeps | src/App.jsx:106-109 | adding an open neighbour of a frontier cell keeps the cage connected, without repeats and apart from the unassigned cells |
| Cages.ConnectedAppend | src/App.jsx:106-107 | a cell touching a cage cell keeps the cage connected |
| Cages.JoinWalled | src/App.jsx:106-109 | cage cells off the frontier stay walled in when a cell joins |
| Cages.DropKeeps | src/App.jsx:102-104 | dropping a frontier cell with no open neighbour keeps the loop invariant |
| Cages.GrowKeeps | src/App.jsx:96-110 | the loop keeps its invariant and stops with the drawn size or with every cage cell walled in |
| Cages.DropGrown | src/App.jsx:102-104 | a round that drops a frontier cell also ends in the exit condition |
| Cages.JoinGrown | src/App.jsx:106-109 | a round that joins a cell also ends in the exit condition |
| Cages.Round | src/App.jsx:86-110 | one outer round moves a nonempty cage out of the unassigned cells, losing none |
| Cages.RoundShape | src/App.jsx:86-115 | each round's cage has 1 to 4 distinct in-grid cells, is 4-connected, and carries the sum of the solution's digits |
| Cages.BuildCages | src/App.jsx:85-116 | the outer loop's cages list every unassigned cell exactly as often as the list did |
| Cages.BuildCagesShape | src/App.jsx:85-116 | every cage of the outer loop has that shape |
| Cages.GenerateKillerCages | src/App.jsx:78-119 | the cages list each of the 81 coordinates exactly once in total |
| Cages.GenerateDistinctKillerCages | src/App.jsx:78-119 | with the corrected filter the cages also list each coordinate exactly once |
| Cages.CagesWellFormedFromCells | src/Solver.js:25-32 | cages with no cell listed twice overall are disjoint, so the owner table is unambiguous |
| Cages.TotalSumIsCellSum | src/App.jsx:113-115 | cage sums computed from the solution add up to the solution's digits under all the cages |
| Killer.RowsSum | src/App.jsx:113-115 | the rows of a solution from r on add up to 45 each |
| Killer.SolutionTotal | src/App.jsx:113-115 | the digits of a solution add up to 405 |
| Killer.CoverWellFormed | src/App.jsx:80-92 | cages listing the 81 coordinates once are in the grid and disjoint |
| Killer.CoverOnce | src/App.jsx:80-92 | such cages hold every cell exactly once |
| Killer.CoverSum | src/App.jsx:113-115 | the sums of such cages add up to the grid's digits |
| Killer.CagesCoverGrid | src/App.jsx:78-119 | either generator's cages partition the grid into connected cages of 1 to 4 cells carrying the solution's sums |
| Killer.KillerCagesPartition | src/App.jsx:78-119 | `generateKillerCages` of a valid full grid partitions it into such cages, whose sums total 405 |
| Killer.DistinctKillerCagesPartition | src/App.jsx:78-119 | the corrected generator gives the same and no cage repeats a digit |
| Killer.DistinctDigitsApart | src/Solver.js:83 | two cells of a cage without repeated digits hold different digits |
| Killer.KillerSolution | src/Solver.js:81-97 | a classic solution whose cages repeat no digit and carry its sums solves every puzzle cut from it under the killer rules |
| Killer.KillerPuzzleSolvable | src/App.jsx:281-289 | a killer puzzle cut from a generated grid with corrected cages is reported solved, whatever the draws |
| Repeats.StartNeighbours | src/App.jsx:101 | the open neighbours of (2, 0) in `dirs` order are below, above and right |
| Repeats.NextNeighbours | src/App.jsx:101 | the open neighbours of (3, 0) are below and right |
| Repeats.FirstShuffle | src/App.jsx:13-19 | the draws 2 and 1 leave three neighbours in order |
| Repeats.SecondShuffle | src/App.jsx:13-19 | the draw 0 swaps two neighbours |
| Repeats.RoundStart | src/App.jsx:86-92 | the draws 18 and 2 start the round at (2, 0) with size 3 |
| Repeats.FirstJoin | src/App.jsx:96-109 | the first pass of the loop adds (3, 0) |
| Repeats.JoinSecond | src/App.jsx:106-109 | the join of (3, 0) continues the loop from the two-cell cage |
| Repeats.SecondJoin | src/App.jsx:96-109 | the second pass adds (3, 1) |
| Repeats.ThirdCell | src/App.jsx:96 | with three cells the loop stops |
| Repeats.FirstRound | src/App.jsx:85-110 | with those draws the first cage is (2, 0), (3, 0), (3, 1) |
| Repeats.FirstCage | src/App.jsx:78-116 | `generateKillerCages` with those draws returns that cage first |
| Repeats.SameCage | src/Solver.js:25-32 | a cell of the first of disjoint cages is owned by it |
| Repeats.RepeatConflict | src/Solver.js:60-65 | one digit twice in a cage is a conflict, and the solver returns `{solved: false, steps: []}` for that grid |
| Repeats.FirstCageRepeats | src/Solver.js:60-65 | cages led by that cage conflict with any grid holding one digit at (2, 0) and (3, 1) |
| Repeats.KillerCagesMayRepeat | src/App.jsx:101 | as written, the generator can make a cage that repeats a digit of the solution, which the solver then rejects |
| Repeats.WitnessDraws | src/App.jsx:87-98 | draws of that kind exist |
| Repeats.RepeatRejected | src/App.jsx:101 | for such a grid and draws, no killer puzzle cut from the grid has it as a solution, and the solver rejects the grid itself |
| Repeats.PatternGridRepeats | src/App.jsx:101 | a valid full grid with one digit at (2, 0) and (3, 1) exists |

## Left out

- The React component: state, effects, the timer, `animate`, alerts, and the
  `handleSolve`, `handleHint` and `handleGenerate` glue (src/App.jsx:121
  onwards). They are UI and timing. For the Classic and Killer variants,
  `Puzzle.PuzzleSolvable` and `Killer.KillerPuzzleSolvable` state what
  `handleGenerate` relies on.
- Generated puzzles under the Diagonal variant: `handleGenerate`
  (src/App.jsx:280-292) cuts the puzzle from a grid built under the classic
  rules only, and `handleSolve` then solves it under the diagonal rules. Its
  givens may repeat a digit on a diagonal, and no member promises that such
  a puzzle is solvable.
- Cage cells outside the grid: `Seed` and `SolveSudoku` require
  `CagesInBounds`, and neither out-of-grid path is modelled. A row outside
  the grid makes the source throw (src/Solver.js:30). A column outside the
  grid does not throw: the owner table gains a stray entry, and the
  `remainingCells` filter (src/Solver.js:86) counts the cell as filled,
  because `grid[r][c]` is `undefined` there. The cell is thus ignored by
  the search, while the cage's target still includes it.
- src/Grid.jsx and `validateGrid`: rendering and UI-side highlighting.
- `Math.random`: modelled as an arbitrary oracle. Distributions and
  uniformity are not modelled.
- Cell strings: `'.'` is 0 and `'1'`–`'9'` are 1 to 9. Cell input
  (`setCell`, src/App.jsx:212-218) only ever stores `'.'` or one of
  `'1'`–`'9'`, so the model covers every grid the UI can build. Other
  strings fall outside the model. A single character other than these, or
  a string such as `" 5"`, fails the test at src/Solver.js:40: the source
  does not seed it and the search skips it. A longer string such as `"10"`,
  `"5x"` or `"1.5"` passes that test and is seeded as `parseInt` of it, so
  `"10"` would set bit 9 and add 10 to its cage's sum.
- Bit operations: the masks are digit sets. The bit-level `|`, `&` and `^`
  are linked to them in module `Bitmask` and not used elsewhere.
- `cageTarget` and `remainingCells`: they are read from the cage list and
  the live grid where the cage rule needs them, not stored.
- Overlapping cage lists: the proofs about solving take disjoint cages
  (`CagesWellFormed`). The owner table itself is modelled with the later
  cage winning, as in the source.
- The mutation of `grid` during the search: the model returns the final
  grid instead. No copy of the solution is mutated by the generators,
  because the model has no mutation.
- Cages.GenerateKillerCages: an empty cell of the solution adds 0 to its
  cage's sum (`CellSum`), where the source's `parseInt('.')` makes that
  sum `NaN` (src/App.jsx:113). The same holds for `Cages.BuildCages`,
  `Cages.Round` and `Cages.GenerateDistinctKillerCages`. The only caller,
  `handleGenerate` (src/App.jsx:281-286), passes the output of
  `generateFullSolution`, which `Generator.GenerateFullSolutionValid` proves
  full. There no sum is `NaN`, and the model's sums equal the source's.
- Cages.Grow: the draw cursor's exact position after the loop is not stated.
  Only the cage, the frontier and the unassigned cells are specified.
- Soundness.SolveSound: a cage that the givens already fill is not
  sum-checked, exactly as in the source. Such cages are not promised to
  meet their targets.

## Findings

| source | as written | input that shows it | evidently intended | confidence | as-written member | corrected member |
|---|---|---|---|---|---|---|
| src/App.jsx:101 | the neighbour filter looks only at bounds and at unassigned cells, so a cage can hold the same digit twice; the solver's cage rule (src/Solver.js:60-65, 83) then rejects the very grid the cages were cut from | the full grid `Generator.PatternGrid` (7 at both (2, 0) and (3, 1)) with draws 18, 2, _, 2, 1, 1, 0 (`Repeats.Witness`): the first cage is (2, 0), (3, 0), (3, 1) | a killer cage never repeats a digit, so the generating solution solves the killer puzzle | high, proved; not executed | Repeats.KillerCagesMayRepeat | Cages.GenerateDistinctKillerCages |
