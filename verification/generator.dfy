/** `generateFullSolution` of src/App.jsx: a randomised backtracking fill of
    the empty grid, row-major, trying the digits of each cell in a freshly
    shuffled order.

    Its `canPlace`, placement and undo are the solver's under the Classic
    rules with no cages (lemma `ClassicCanPlace`), so the model reuses
    `Solver.CanPlace`, `Solver.Place` and `Solver.Undo`, and the proofs reuse
    the solver's invariant and completeness argument. */
module Generator {
  import opened Board
  import opened Solver
  import opened Constraints
  import opened Seeding
  import opened Invariant
  import opened Completeness
  import opened Shuffling

  /** Rows, columns and boxes only. */
  function ClassicRules(): (rules: Rules)
    ensures CagesWellFormed(rules.cages) && rules.cages == []
  {
    Rules(Classic, [])
  }

  /** The generator's `canPlace(r, c, d)` tests bit d of the row, column and
      box masks; for digit v = d + 1 that is the solver's test under the
      Classic rules with no cages. */
  lemma ClassicCanPlace(st: State, r: int, c: int, v: int)
    requires Ready(ClassicRules(), st) && InBounds(r, c)
    ensures CanPlace(ClassicRules(), st, r, c, v)
        <==> v !in st.rows[r] && v !in st.cols[c] && v !in st.boxes[BoxIndex(r, c)]
  {
  }

  /** `[...Array(9).keys()]`: the digit indices 0..8. */
  function DigitIndices(): (d: seq<int>)
    ensures |d| == 9 && forall i | 0 <= i < 9 :: d[i] == i
  {
    seq(9, i => i)
  }

  /** A shuffled digit order holds each index 0..8 and nothing else. */
  lemma ShuffledDigits(rnd: nat -> nat, k: nat)
    ensures var order := Shuffle(DigitIndices(), rnd, k).value;
      && (forall t | 0 <= t < |order| :: 0 <= order[t] <= 8)
      && (forall x | 0 <= x <= 8 :: x in order)
  {
    ShuffledRange(DigitIndices(), Shuffle(DigitIndices(), rnd, k).value);
  }

  /** Where the digit index x sits in a shuffled order. */
  lemma FindDigit(rnd: nat -> nat, k: nat, x: int) returns (j: int)
    requires 0 <= x <= 8
    ensures var order := Shuffle(DigitIndices(), rnd, k).value;
      && (forall t | 0 <= t < |order| :: 0 <= order[t] <= 8)
      && 0 <= j < |order| && order[j] == x
  {
    ShuffledDigits(rnd, k);
    var order := Shuffle(DigitIndices(), rnd, k).value;
    assert x in order;
    j :| 0 <= j < |order| && order[j] == x;
  }

  /** A reordering of 0..8 holds each of them and nothing else. */
  lemma ShuffledRange(d: seq<int>, order: seq<int>)
    requires |d| == 9 && (forall i | 0 <= i < 9 :: d[i] == i) && multiset(order) == multiset(d)
    ensures forall t | 0 <= t < |order| :: 0 <= order[t] <= 8
    ensures forall x | 0 <= x <= 8 :: x in order
  {
    forall t | 0 <= t < |order|
      ensures 0 <= order[t] <= 8
    {
      assert order[t] in multiset(d);
    }
    forall x | 0 <= x <= 8
      ensures x in order
    {
      assert d[x] == x;
      assert x in multiset(order);
    }
  }

  /** Every cell from row-major position p on is empty. */
  predicate EmptyFrom(g: Grid, p: int)
    requires IsGrid(g)
  {
    forall r, c | 0 <= r < 9 && 0 <= c < 9 && Pos(r, c) >= p :: g[r][c] == 0
  }

  /** Result of a `helper` call: its flag, the state on return, and the
      oracle cursor after its draws. */
  datatype Gen = Gen(ok: bool, st: State, next: nat)

  /** `helper(pos)` at pos = Pos(r, c): succeed at 81, otherwise shuffle the
      digit order and try each digit at (r, c). Position (r, 9) is the same
      as (r + 1, 0). */
  function Fill(st: State, r: int, c: int, rnd: nat -> nat, k: nat): (res: Gen)
    requires Ready(ClassicRules(), st) && 0 <= r <= 9 && 0 <= c <= 9
    requires EmptyFrom(st.grid, Pos(r, c))
    ensures Ready(ClassicRules(), res.st)
    ensures !res.ok ==> res.st == st
    ensures Keeps(st.grid, res.st.grid)
    ensures res.ok ==> FilledFrom(res.st.grid, Pos(r, c))
    decreases 90 - Pos(r, c), if c == 9 then 1 else 0, 10
  {
    if r == 9 then Gen(true, st, k)
    else if c == 9 then Fill(st, r + 1, 0, rnd, k)
    else
      var order := Shuffle(DigitIndices(), rnd, k);
      ShuffledDigits(rnd, k);
      FillDigits(st, r, c, order.value, 0, rnd, order.next)
  }

  /** The `for (let d of nums)` loop from entry i on: skip a digit d + 1 that
      `canPlace` rejects, otherwise try it. */
  function FillDigits(st: State, r: int, c: int, nums: seq<int>, i: int, rnd: nat -> nat, k: nat): (res: Gen)
    requires Ready(ClassicRules(), st) && InBounds(r, c) && EmptyFrom(st.grid, Pos(r, c))
    requires 0 <= i <= |nums| && forall t | 0 <= t < |nums| :: 0 <= nums[t] <= 8
    ensures Ready(ClassicRules(), res.st)
    ensures !res.ok ==> res.st == st
    ensures Keeps(st.grid, res.st.grid)
    ensures res.ok ==> FilledFrom(res.st.grid, Pos(r, c))
    decreases 90 - Pos(r, c), 0, |nums| - i, 1
  {
    if i == |nums| then Gen(false, st, k)
    else if !CanPlace(ClassicRules(), st, r, c, nums[i] + 1) then FillDigits(st, r, c, nums, i + 1, rnd, k)
    else FillDigit(st, r, c, nums, i, rnd, k)
  }

  /** One pass of the loop body for an allowed digit v = nums[i] + 1: place
      it, recurse on the next position, and on failure clear the cell and
      flip the bit back before moving to the next entry. */
  function FillDigit(st: State, r: int, c: int, nums: seq<int>, i: int, rnd: nat -> nat, k: nat): (res: Gen)
    requires Ready(ClassicRules(), st) && InBounds(r, c) && EmptyFrom(st.grid, Pos(r, c))
    requires 0 <= i < |nums| && forall t | 0 <= t < |nums| :: 0 <= nums[t] <= 8
    requires CanPlace(ClassicRules(), st, r, c, nums[i] + 1)
    ensures Ready(ClassicRules(), res.st)
    ensures !res.ok ==> res.st == st
    ensures Keeps(st.grid, res.st.grid)
    ensures res.ok ==> FilledFrom(res.st.grid, Pos(r, c))
    decreases 90 - Pos(r, c), 0, |nums| - i, 0
  {
    var v := nums[i] + 1;
    var placed := Place(ClassicRules(), st, r, c, v);
    PlaceEmptyFrom(st, r, c, v);
    var sub := Fill(placed, r, c + 1, rnd, k);
    KeepsPlaced(ClassicRules(), st, r, c, v, sub.st.grid);
    if sub.ok then Gen(true, sub.st, sub.next)
    else
      UndoAfterPlace(ClassicRules(), st, r, c, v);
      var undone := Undo(ClassicRules(), sub.st, r, c, v);
      assert undone == st;
      FillDigits(undone, r, c, nums, i + 1, rnd, sub.next)
  }

  /** A placement at (r, c) leaves every later cell empty. */
  lemma PlaceEmptyFrom(st: State, r: int, c: int, v: int)
    requires Ready(ClassicRules(), st) && InBounds(r, c) && 1 <= v <= 9 && EmptyFrom(st.grid, Pos(r, c))
    ensures EmptyFrom(Place(ClassicRules(), st, r, c, v).grid, Pos(r, c + 1))
  {
  }

  /** `generateFullSolution()`: run `helper(0)` on the empty grid and return
      the grid whatever `helper` reports. */
  function GenerateFullSolution(rnd: nat -> nat, k: nat): (res: Drawn<Grid>)
    ensures IsGrid(res.value)
  {
    var st := EmptyMasks(ClassicRules(), EmptyGrid());
    Drawn(Fill(st, 0, 0, rnd, k).st.grid, Fill(st, 0, 0, rnd, k).next)
  }

  /** `helper` keeps the solver's search invariant. */
  lemma {:induction false} FillInv(g0: Grid, st: State, r: int, c: int, rnd: nat -> nat, k: nat)
    requires Inv(ClassicRules(), g0, st) && 0 <= r <= 9 && 0 <= c <= 9 && EmptyFrom(st.grid, Pos(r, c))
    ensures Inv(ClassicRules(), g0, Fill(st, r, c, rnd, k).st)
    decreases 90 - Pos(r, c), if c == 9 then 1 else 0, 10
  {
    if r == 9 {
    } else if c == 9 {
      FillInv(g0, st, r + 1, 0, rnd, k);
    } else {
      var order := Shuffle(DigitIndices(), rnd, k);
      ShuffledDigits(rnd, k);
      FillDigitsInv(g0, st, r, c, order.value, 0, rnd, order.next);
    }
  }

  lemma {:induction false} FillDigitsInv(g0: Grid, st: State, r: int, c: int, nums: seq<int>, i: int, rnd: nat -> nat, k: nat)
    requires Inv(ClassicRules(), g0, st) && InBounds(r, c) && EmptyFrom(st.grid, Pos(r, c))
    requires 0 <= i <= |nums| && forall t | 0 <= t < |nums| :: 0 <= nums[t] <= 8
    ensures Inv(ClassicRules(), g0, FillDigits(st, r, c, nums, i, rnd, k).st)
    decreases 90 - Pos(r, c), 0, |nums| - i, 1
  {
    if i < |nums| {
      if !CanPlace(ClassicRules(), st, r, c, nums[i] + 1) {
        FillDigitsInv(g0, st, r, c, nums, i + 1, rnd, k);
      } else {
        FillDigitInv(g0, st, r, c, nums, i, rnd, k);
      }
    }
  }

  lemma {:induction false} FillDigitInv(g0: Grid, st: State, r: int, c: int, nums: seq<int>, i: int, rnd: nat -> nat, k: nat)
    requires Inv(ClassicRules(), g0, st) && InBounds(r, c) && EmptyFrom(st.grid, Pos(r, c))
    requires 0 <= i < |nums| && forall t | 0 <= t < |nums| :: 0 <= nums[t] <= 8
    requires CanPlace(ClassicRules(), st, r, c, nums[i] + 1)
    ensures Inv(ClassicRules(), g0, FillDigit(st, r, c, nums, i, rnd, k).st)
    decreases 90 - Pos(r, c), 0, |nums| - i, 0
  {
    var v := nums[i] + 1;
    var placed := Place(ClassicRules(), st, r, c, v);
    PlaceKeepsInv(ClassicRules(), g0, st, r, c, v);
    PlaceEmptyFrom(st, r, c, v);
    var sub := Fill(placed, r, c + 1, rnd, k);
    if sub.ok {
      FillInv(g0, placed, r, c + 1, rnd, k);
    } else {
      UndoAfterPlace(ClassicRules(), st, r, c, v);
      FillDigitsInv(g0, st, r, c, nums, i + 1, rnd, sub.next);
    }
  }

  /** The fill so far follows the solution `goal` up to (r, c) and keeps the
      search invariant. */
  ghost predicate OnTrack(g0: Grid, goal: Grid, st: State, r: int, c: int) {
    && IsGrid(g0) && EmptyFrom(g0, 0)
    && Solution(ClassicRules(), g0, goal) && Inv(ClassicRules(), g0, st)
    && 0 <= r <= 9 && 0 <= c <= 9 && Agrees(g0, goal, st.grid, Pos(r, c))
  }

  /** Following a solution of the empty grid, the rest is still empty. */
  lemma OnTrackEmptyFrom(g0: Grid, goal: Grid, st: State, r: int, c: int)
    requires OnTrack(g0, goal, st, r, c)
    ensures EmptyFrom(st.grid, Pos(r, c))
  {
  }

  /** `goal`'s digit at (r, c) passes `canPlace`. */
  lemma OnTrackAllows(g0: Grid, goal: Grid, st: State, r: int, c: int)
    requires OnTrack(g0, goal, st, r, c) && InBounds(r, c)
    ensures st.grid[r][c] == 0 && 1 <= goal[r][c] <= 9
    ensures CanPlace(ClassicRules(), st, r, c, goal[r][c])
  {
    GoalPlaceable(ClassicRules(), g0, goal, st, r, c);
  }

  /** Placing `goal`'s digit at (r, c) stays on track one cell further. */
  lemma OnTrackPlace(g0: Grid, goal: Grid, st: State, r: int, c: int)
    requires OnTrack(g0, goal, st, r, c) && InBounds(r, c)
    ensures st.grid[r][c] == 0 && 1 <= goal[r][c] <= 9
    ensures OnTrack(g0, goal, Place(ClassicRules(), st, r, c, goal[r][c]), r, c + 1)
  {
    GoalPlaceable(ClassicRules(), g0, goal, st, r, c);
    PlaceKeepsInv(ClassicRules(), g0, st, r, c, goal[r][c]);
    AgreesStep(g0, goal, st.grid, r, c);
  }

  /** From a state following a solution up to (r, c), `helper` succeeds. */
  lemma {:induction false} FillComplete(g0: Grid, goal: Grid, st: State, r: int, c: int, rnd: nat -> nat, k: nat)
    requires OnTrack(g0, goal, st, r, c)
    ensures EmptyFrom(st.grid, Pos(r, c))
    ensures Fill(st, r, c, rnd, k).ok
    decreases 90 - Pos(r, c), if c == 9 then 1 else 0, 11
  {
    OnTrackEmptyFrom(g0, goal, st, r, c);
    if r == 9 {
    } else if c == 9 {
      FillComplete(g0, goal, st, r + 1, 0, rnd, k);
    } else {
      FillCompleteAt(g0, goal, st, r, c, rnd, k);
    }
  }

  /** At an empty cell the shuffled order holds `goal`'s digit somewhere, so
      the digit loop reaches it. */
  lemma {:induction false} FillCompleteAt(g0: Grid, goal: Grid, st: State, r: int, c: int, rnd: nat -> nat, k: nat)
    requires OnTrack(g0, goal, st, r, c) && InBounds(r, c) && EmptyFrom(st.grid, Pos(r, c))
    ensures Fill(st, r, c, rnd, k).ok
    decreases 90 - Pos(r, c), 0, 10
  {
    var order := Shuffle(DigitIndices(), rnd, k);
    OnTrackAllows(g0, goal, st, r, c);
    var j := FindDigit(rnd, k, goal[r][c] - 1);
    FillDigitsComplete(g0, goal, st, r, c, order.value, 0, j, rnd, order.next);
  }

  /** The digit loop succeeds while `goal`'s digit at (r, c) is still ahead
      in the order (at entry j >= i). */
  lemma {:induction false} FillDigitsComplete(g0: Grid, goal: Grid, st: State, r: int, c: int, nums: seq<int>, i: int, j: int, rnd: nat -> nat, k: nat)
    requires OnTrack(g0, goal, st, r, c) && InBounds(r, c) && EmptyFrom(st.grid, Pos(r, c))
    requires forall t | 0 <= t < |nums| :: 0 <= nums[t] <= 8
    requires 0 <= i <= j < |nums| && nums[j] == goal[r][c] - 1
    ensures FillDigits(st, r, c, nums, i, rnd, k).ok
    decreases 90 - Pos(r, c), 0, |nums| - i, 1
  {
    OnTrackAllows(g0, goal, st, r, c);
    if !CanPlace(ClassicRules(), st, r, c, nums[i] + 1) {
      FillDigitsComplete(g0, goal, st, r, c, nums, i + 1, j, rnd, k);
    } else if i == j {
      GoalDigitSucceeds(g0, goal, st, r, c, nums, i, rnd, k);
    } else {
      PlacedComplete(g0, goal, st, r, c, nums, i, j, rnd, k);
    }
  }

  /** Placing `goal`'s own digit at (r, c) and filling on succeeds. */
  lemma {:induction false} GoalDigitSucceeds(g0: Grid, goal: Grid, st: State, r: int, c: int, nums: seq<int>, i: int, rnd: nat -> nat, k: nat)
    requires OnTrack(g0, goal, st, r, c) && InBounds(r, c) && EmptyFrom(st.grid, Pos(r, c))
    requires forall t | 0 <= t < |nums| :: 0 <= nums[t] <= 8
    requires 0 <= i < |nums| && nums[i] == goal[r][c] - 1
    requires CanPlace(ClassicRules(), st, r, c, nums[i] + 1)
    ensures FillDigit(st, r, c, nums, i, rnd, k).ok
    decreases 90 - Pos(r, c), 0, 0, 0
  {
    OnTrackPlace(g0, goal, st, r, c);
    FillComplete(g0, goal, Place(ClassicRules(), st, r, c, goal[r][c]), r, c + 1, rnd, k);
  }

  /** An earlier allowed digit (entry i before `goal`'s entry j) either
      succeeds below or is undone, and the loop moves on. */
  lemma {:induction false} PlacedComplete(g0: Grid, goal: Grid, st: State, r: int, c: int, nums: seq<int>, i: int, j: int, rnd: nat -> nat, k: nat)
    requires OnTrack(g0, goal, st, r, c) && InBounds(r, c) && EmptyFrom(st.grid, Pos(r, c))
    requires forall t | 0 <= t < |nums| :: 0 <= nums[t] <= 8
    requires 0 <= i < j < |nums| && nums[j] == goal[r][c] - 1
    requires CanPlace(ClassicRules(), st, r, c, nums[i] + 1)
    ensures FillDigit(st, r, c, nums, i, rnd, k).ok
    decreases 90 - Pos(r, c), 0, |nums| - i, 0
  {
    var v := nums[i] + 1;
    var sub := Fill(Place(ClassicRules(), st, r, c, v), r, c + 1, rnd, k);
    if !sub.ok {
      UndoAfterPlace(ClassicRules(), st, r, c, v);
      FillDigitsComplete(g0, goal, st, r, c, nums, i + 1, j, rnd, sub.next);
    }
  }

  /** How far row r of the fixed grid below is rotated: 0, 3, 6 in the first
      band, 5, 8, 2 in the second, 1, 4, 7 in the third. Within a band the
      rotations differ by a multiple of 3; across the bands they are all
      different. */
  function Shift(r: int): (s: int)
    requires 0 <= r < 9
    ensures 0 <= s < 9
  {
    if r < 3 then 3 * r
    else if r == 3 then 5 else if r == 4 then 8 else if r == 5 then 2
    else 3 * (r - 6) + 1
  }

  /** A fixed full grid: row r is 1..9 rotated left by Shift(r). */
  function Pattern(r: int, c: int): (v: int)
    requires InBounds(r, c)
    ensures 1 <= v <= 9
  {
    var x := Shift(r) + c;
    if x < 9 then x + 1 else x - 8
  }

  /** Within a box the rotations of its three rows differ by 3 and the
      columns by less than 3, so the nine digits differ. */
  lemma PatternBoxDistinct(r1: int, c1: int, r2: int, c2: int)
    requires InBounds(r1, c1) && InBounds(r2, c2) && r1 != r2 && c1 != c2
    requires r1 / 3 == r2 / 3 && c1 / 3 == c2 / 3
    ensures Pattern(r1, c1) != Pattern(r2, c2)
  {
    var b, p := r1 / 3, c1 / 3;
    assert 3 * b <= r1 < 3 * b + 3 && 3 * b <= r2 < 3 * b + 3;
    assert 3 * p <= c1 < 3 * p + 3 && 3 * p <= c2 < 3 * p + 3;
  }

  /** Two cells sharing a row, column or box get different pattern digits. */
  lemma PatternDistinct(r1: int, c1: int, r2: int, c2: int)
    requires InBounds(r1, c1) && InBounds(r2, c2) && (r1 != r2 || c1 != c2)
    requires r1 == r2 || c1 == c2 || BoxIndex(r1, c1) == BoxIndex(r2, c2)
    ensures Pattern(r1, c1) != Pattern(r2, c2)
  {
    if r1 != r2 && c1 != c2 {
      assert r1 / 3 == r2 / 3 && c1 / 3 == c2 / 3;
      PatternBoxDistinct(r1, c1, r2, c2);
    }
  }

  function PatternGrid(): (g: Grid)
    ensures IsGrid(g) && IsFull(g)
    ensures forall r, c | 0 <= r < 9 && 0 <= c < 9 :: g[r][c] == Pattern(r, c)
  {
    seq(9, r requires 0 <= r < 9 => seq(9, c requires 0 <= c < 9 => Pattern(r, c)))
  }

  /** The empty grid has a solution, so a full Classic grid exists. */
  lemma EmptyGridSolvable()
    ensures Solution(ClassicRules(), EmptyGrid(), PatternGrid())
  {
    var g := PatternGrid();
    forall r1, c1, r2, c2 | InBounds(r1, c1) && InBounds(r2, c2) && Peers(ClassicRules(), r1, c1, r2, c2) && g[r1][c1] != 0
      ensures g[r1][c1] != g[r2][c2]
    {
      PatternDistinct(r1, c1, r2, c2);
    }
  }

  /** `generateFullSolution` always succeeds, whatever the oracle draws:
      `helper(0)` returns true, and the grid returned is full, with each
      digit once in every row, column and box. */
  lemma GenerateFullSolutionValid(rnd: nat -> nat, k: nat)
    ensures Fill(EmptyMasks(ClassicRules(), EmptyGrid()), 0, 0, rnd, k).ok
    ensures Solution(ClassicRules(), EmptyGrid(), GenerateFullSolution(rnd, k).value)
  {
    var g0 := EmptyGrid();
    var st := EmptyMasks(ClassicRules(), g0);
    ScanStarts(ClassicRules(), g0);
    InvStart(ClassicRules(), st);
    EmptyGridSolvable();
    FillComplete(g0, PatternGrid(), st, 0, 0, rnd, k);
    FillInv(g0, st, 0, 0, rnd, k);
  }
}
