/** `generateKillerCages` of src/App.jsx: repeatedly pick an unassigned cell,
    draw a cage size in 1..4, grow the cage from its start cell by a random
    walk over a frontier of cage cells, and give it the sum of the solution's
    digits under it.

    The unassigned cells are the insertion-ordered `Set` of the source: a
    sequence without repeats, row-major at first, losing cells as they are
    assigned. `avoidRepeats` is false for the function as written; true gives
    the corrected generator, which also refuses a neighbour whose digit the
    cage already holds (see the Killer module). */
module Cages {
  import opened Board
  import opened SeqFacts
  import opened Shuffling
  import opened Soundness
  import opened Tally
  import opened Solver
  import opened Constraints

  /** The four cells `dirs` reaches from f, in its order: below, above,
      right, left. */
  function Around(f: Cell): (ns: seq<Cell>)
    ensures |ns| == 4
  {
    [Cell(f.row + 1, f.col), Cell(f.row - 1, f.col), Cell(f.row, f.col + 1), Cell(f.row, f.col - 1)]
  }

  /** a and b share a side. */
  predicate Touching(a: Cell, b: Cell) {
    || (a.row == b.row && (a.col == b.col + 1 || a.col + 1 == b.col))
    || (a.col == b.col && (a.row == b.row + 1 || a.row + 1 == b.row))
  }

  /** The neighbour filter: inside the grid, still unassigned, and, when
      `avoidRepeats`, holding a digit the cage does not hold yet. */
  predicate Open(x: Cell, cage: seq<Cell>, remaining: seq<Cell>, solution: Grid, avoidRepeats: bool)
    requires IsGrid(solution) && CellsInBounds(cage)
  {
    && InBounds(x.row, x.col) && x in remaining
    && (avoidRepeats ==> solution[x.row][x.col] !in Values(solution, cage))
  }

  /** `ds.filter(...)` with the neighbour filter, keeping the order. */
  function KeepOpen(ds: seq<Cell>, cage: seq<Cell>, remaining: seq<Cell>, solution: Grid, avoidRepeats: bool): (ns: seq<Cell>)
    requires IsGrid(solution) && CellsInBounds(cage)
    ensures forall x :: x in ns <==> x in ds && Open(x, cage, remaining, solution, avoidRepeats)
  {
    if |ds| == 0 then []
    else (if Open(ds[0], cage, remaining, solution, avoidRepeats) then [ds[0]] else [])
         + KeepOpen(ds[1..], cage, remaining, solution, avoidRepeats)
  }

  /** The candidate neighbours of the frontier cell f: exactly the open
      cells sharing a side with f. */
  function Neighbours(f: Cell, cage: seq<Cell>, remaining: seq<Cell>, solution: Grid, avoidRepeats: bool): (ns: seq<Cell>)
    requires IsGrid(solution) && CellsInBounds(cage)
    ensures forall x :: x in ns <==> Touching(f, x) && Open(x, cage, remaining, solution, avoidRepeats)
  {
    KeepOpen(Around(f), cage, remaining, solution, avoidRepeats)
  }

  lemma DistinctCons<T>(a: T, s: seq<T>)
    requires a !in s && Distinct(s)
    ensures Distinct([a] + s)
  {
    forall i, j | 0 <= i < j < |[a] + s|
      ensures ([a] + s)[i] != ([a] + s)[j]
    {
      if i > 0 {
        assert ([a] + s)[i] == s[i - 1] && ([a] + s)[j] == s[j - 1];
      }
    }
  }

  lemma DistinctTail<T>(s: seq<T>)
    requires |s| > 0 && Distinct(s)
    ensures Distinct(s[1..]) && s[0] !in s[1..]
  {
    forall i, j | 0 <= i < j < |s| - 1
      ensures s[1..][i] != s[1..][j]
    {
      assert s[1..][i] == s[i + 1] && s[1..][j] == s[j + 1];
    }
    forall i | 0 <= i < |s| - 1
      ensures s[1..][i] != s[0]
    {
      assert s[1..][i] == s[i + 1];
    }
  }

  /** `remaining.delete(x)`: the other cells, in their order. */
  function Remove(s: seq<Cell>, x: Cell): (t: seq<Cell>)
    ensures multiset(t) == multiset(s)[x := 0]
    ensures |t| <= |s|
  {
    if |s| == 0 then []
    else
      assert s == [s[0]] + s[1..];
      (if s[0] == x then [] else [s[0]]) + Remove(s[1..], x)
  }

  /** Deleting x keeps exactly the other cells, and keeps them in bounds. */
  lemma RemoveMembers(s: seq<Cell>, x: Cell)
    ensures forall y :: y in Remove(s, x) <==> y in s && y != x
    ensures CellsInBounds(s) ==> CellsInBounds(Remove(s, x))
  {
    var t := Remove(s, x);
    forall y
      ensures y in t <==> y in s && y != x
    {
      assert y in t <==> y in multiset(t);
      assert y in s <==> y in multiset(s);
    }
    if CellsInBounds(s) {
      forall i | 0 <= i < |t|
        ensures InBounds(t[i].row, t[i].col)
      {
        assert t[i] in s;
      }
    }
  }

  /** Deleting from a list without repeats keeps it without repeats. */
  lemma {:induction false} RemoveDistinct(s: seq<Cell>, x: Cell)
    requires Distinct(s)
    ensures Distinct(Remove(s, x))
  {
    if |s| > 0 {
      DistinctTail(s);
      RemoveDistinct(s[1..], x);
      if s[0] != x {
        RemoveMembers(s[1..], x);
        DistinctCons(s[0], Remove(s[1..], x));
      }
    }
  }

  /** From a list without repeats, deleting a present x deletes one cell. */
  lemma RemoveOne(s: seq<Cell>, x: Cell)
    requires Distinct(s) && x in s
    ensures multiset(Remove(s, x)) == multiset(s) - multiset{x}
    ensures |Remove(s, x)| == |s| - 1
  {
    DistinctOnce(s, x);
    assert multiset(s)[x := 0] == multiset(s) - multiset{x};
    assert |multiset(Remove(s, x))| == |multiset(s)| - 1;
  }

  /** The three facts together, as the loops below use them. */
  lemma RemoveFacts(s: seq<Cell>, x: Cell)
    requires Distinct(s) && CellsInBounds(s) && x in s
    ensures forall y :: y in Remove(s, x) <==> y in s && y != x
    ensures CellsInBounds(Remove(s, x)) && Distinct(Remove(s, x))
    ensures multiset(Remove(s, x)) == multiset(s) - multiset{x}
    ensures |Remove(s, x)| == |s| - 1
  {
    RemoveMembers(s, x);
    RemoveDistinct(s, x);
    RemoveOne(s, x);
  }

  /** The state of the growing loop when it stops: the cage and the cells
      still unassigned, with the oracle cursor. */
  datatype Growth = Growth(cage: seq<Cell>, remaining: seq<Cell>, next: nat)

  /** The `while (cageCells.length < size && frontier.length)` loop: draw a
      frontier index and shuffle that cell's open neighbours; with none, drop
      the cell from the frontier, otherwise the first one joins the cage. */
  function Grow(cage: seq<Cell>, frontier: seq<Cell>, remaining: seq<Cell>, size: int,
                solution: Grid, avoidRepeats: bool, rnd: nat -> nat, k: nat): (res: Growth)
    requires IsGrid(solution) && CellsInBounds(cage) && CellsInBounds(remaining) && Distinct(remaining)
    ensures CellsInBounds(res.cage) && CellsInBounds(res.remaining) && Distinct(res.remaining)
    ensures |cage| <= |res.cage| && res.cage[..|cage|] == cage
    ensures |res.cage| <= if |cage| < size then size else |cage|
    ensures multiset(res.cage) + multiset(res.remaining) == multiset(cage) + multiset(remaining)
    ensures |res.cage| + |res.remaining| == |cage| + |remaining|
    decreases size - |cage|, |frontier|
  {
    if |cage| >= size || |frontier| == 0 then Growth(cage, remaining, k)
    else
      var idx := Pick(rnd, k, |frontier|);
      var ns := Neighbours(frontier[idx], cage, remaining, solution, avoidRepeats);
      var sh := Shuffle(ns, rnd, k + 1);
      if |sh.value| == 0 then
        Grow(cage, frontier[..idx] + frontier[idx + 1..], remaining, size, solution, avoidRepeats, rnd, sh.next)
      else
        ShuffleMembers(ns, rnd, k + 1, sh.value[0]);
        Join(cage, frontier, remaining, sh.value[0], size, solution, avoidRepeats, rnd, sh.next)
  }

  /** The end of a loop round that found a neighbour n: n joins the cage and
      the frontier and leaves the unassigned cells. */
  function Join(cage: seq<Cell>, frontier: seq<Cell>, remaining: seq<Cell>, n: Cell, size: int,
                solution: Grid, avoidRepeats: bool, rnd: nat -> nat, k: nat): (res: Growth)
    requires IsGrid(solution) && CellsInBounds(cage) && CellsInBounds(remaining) && Distinct(remaining)
    requires |cage| < size && InBounds(n.row, n.col) && n in remaining
    ensures CellsInBounds(res.cage) && CellsInBounds(res.remaining) && Distinct(res.remaining)
    ensures |cage| < |res.cage| <= size && res.cage[..|cage|] == cage
    ensures multiset(res.cage) + multiset(res.remaining) == multiset(cage) + multiset(remaining)
    ensures |res.cage| + |res.remaining| == |cage| + |remaining|
    decreases size - |cage|, 0
  {
    RemoveFacts(remaining, n);
    var res := Grow(cage + [n], frontier + [n], Remove(remaining, n), size, solution, avoidRepeats, rnd, k);
    assert (cage + [n])[..|cage|] == cage;
    assert res.cage[..|cage|] == res.cage[..|cage| + 1][..|cage|];
    res
  }

  /** Each cell after the first touches an earlier one, so the cells form
      one connected piece. */
  predicate Connected(cells: seq<Cell>) {
    forall i | 0 < i < |cells| :: TouchesEarlier(cells, i)
  }

  /** The i-th cell shares a side with a cell listed before it. */
  predicate TouchesEarlier(cells: seq<Cell>, i: int)
    requires 0 <= i < |cells|
  {
    exists j | 0 <= j < i :: Touching(cells[j], cells[i])
  }

  /** No digit of `solution` appears twice under the cells. */
  predicate DistinctDigits(solution: Grid, cells: seq<Cell>)
    requires IsGrid(solution) && CellsInBounds(cells)
  {
    Distinct(Values(solution, cells))
  }

  /** No cell around x can join the cage. */
  predicate Walled(x: Cell, cage: seq<Cell>, remaining: seq<Cell>, solution: Grid, avoidRepeats: bool)
    requires IsGrid(solution) && CellsInBounds(cage)
  {
    forall j | 0 <= j < 4 :: !Open(Around(x)[j], cage, remaining, solution, avoidRepeats)
  }

  /** The invariant of the growing loop: a connected cage without repeats,
      disjoint from the unassigned cells, its frontier inside it, every cage
      cell that has left the frontier walled in, and, for the corrected
      generator, no digit twice. */
  ghost predicate Growing(cage: seq<Cell>, frontier: seq<Cell>, remaining: seq<Cell>, solution: Grid, avoidRepeats: bool)
    requires IsGrid(solution)
  {
    && |cage| >= 1 && CellsInBounds(cage) && CellsInBounds(remaining)
    && Distinct(cage) && Distinct(remaining)
    && (forall i | 0 <= i < |cage| :: cage[i] !in remaining)
    && Connected(cage)
    && (forall i | 0 <= i < |frontier| :: frontier[i] in cage)
    && (avoidRepeats ==> DistinctDigits(solution, cage))
    && (forall i | 0 <= i < |cage| && cage[i] !in frontier :: Walled(cage[i], cage, remaining, solution, avoidRepeats))
  }

  /** What the growing loop leaves: the invariant without the frontier, and,
      when the cage is short of its size, every cell of it walled in. */
  ghost predicate Grown(res: Growth, size: int, solution: Grid, avoidRepeats: bool)
    requires IsGrid(solution)
  {
    && |res.cage| >= 1 && CellsInBounds(res.cage)
    && Distinct(res.cage) && Connected(res.cage)
    && (forall i | 0 <= i < |res.cage| :: res.cage[i] !in res.remaining)
    && (avoidRepeats ==> DistinctDigits(solution, res.cage))
    && (|res.cage| < size ==> forall i | 0 <= i < |res.cage| :: Walled(res.cage[i], res.cage, res.remaining, solution, avoidRepeats))
  }

  /** The loop starts in the invariant. */
  lemma GrowStart(pick: Cell, remaining: seq<Cell>, solution: Grid, avoidRepeats: bool)
    requires IsGrid(solution) && CellsInBounds(remaining) && Distinct(remaining) && pick in remaining
    ensures Growing([pick], [pick], Remove(remaining, pick), solution, avoidRepeats)
  {
    RemoveFacts(remaining, pick);
    var i :| 0 <= i < |remaining| && remaining[i] == pick;
    assert Values(solution, [pick]) == [solution[pick.row][pick.col]];
  }

  /** A cell that can join the larger cage could have joined the smaller
      one: walls only grow. */
  lemma OpenShrinks(y: Cell, cage: seq<Cell>, remaining: seq<Cell>, n: Cell, solution: Grid, avoidRepeats: bool)
    requires IsGrid(solution) && CellsInBounds(cage) && InBounds(n.row, n.col)
    requires CellsInBounds(cage + [n])
    requires Open(y, cage + [n], Remove(remaining, n), solution, avoidRepeats)
    ensures Open(y, cage, remaining, solution, avoidRepeats)
  {
    RemoveMembers(remaining, n);
    assert Values(solution, cage + [n]) == Values(solution, cage) + [solution[n.row][n.col]];
  }

  /** Adding an open neighbour of a frontier cell keeps the invariant. */
  lemma JoinKeeps(cage: seq<Cell>, frontier: seq<Cell>, remaining: seq<Cell>, f: Cell, n: Cell, solution: Grid, avoidRepeats: bool)
    requires IsGrid(solution) && Growing(cage, frontier, remaining, solution, avoidRepeats)
    requires f in frontier && n in Around(f) && Open(n, cage, remaining, solution, avoidRepeats)
    ensures Growing(cage + [n], frontier + [n], Remove(remaining, n), solution, avoidRepeats)
  {
    var cage', remaining' := cage + [n], Remove(remaining, n);
    RemoveFacts(remaining, n);
    assert CellsInBounds(cage');
    assert Distinct(cage') by {
      forall i | 0 <= i < |cage|
        ensures cage'[i] != n
      {
        assert cage[i] !in remaining;
      }
    }
    var j :| 0 <= j < |cage| && cage[j] == f;
    AroundTouching(f, n);
    ConnectedAppend(cage, j, n);
    if avoidRepeats {
      assert Values(solution, cage') == Values(solution, cage) + [solution[n.row][n.col]];
    }
    JoinWalled(cage, frontier, remaining, n, solution, avoidRepeats);
  }

  /** The cells `dirs` reaches are the cells sharing a side. */
  lemma AroundTouching(f: Cell, n: Cell)
    ensures n in Around(f) <==> Touching(f, n)
  {
  }

  /** A cell touching a cell of a connected cage keeps it connected. */
  lemma ConnectedAppend(cage: seq<Cell>, j: int, n: Cell)
    requires Connected(cage) && 0 <= j < |cage| && Touching(cage[j], n)
    ensures Connected(cage + [n])
  {
    var cage' := cage + [n];
    forall i | 0 < i < |cage'|
      ensures TouchesEarlier(cage', i)
    {
      if i == |cage| {
        assert Touching(cage'[j], cage'[i]);
      } else {
        assert TouchesEarlier(cage, i);
        var t :| 0 <= t < i && Touching(cage[t], cage[i]);
        assert Touching(cage'[t], cage'[i]);
      }
    }
  }

  /** Cage cells off the frontier stay walled in when a cell joins. */
  lemma JoinWalled(cage: seq<Cell>, frontier: seq<Cell>, remaining: seq<Cell>, n: Cell, solution: Grid, avoidRepeats: bool)
    requires IsGrid(solution) && Growing(cage, frontier, remaining, solution, avoidRepeats)
    requires InBounds(n.row, n.col) && n in remaining
    ensures CellsInBounds(cage + [n])
    ensures forall i | 0 <= i < |cage + [n]| && (cage + [n])[i] !in frontier + [n] ::
      Walled((cage + [n])[i], cage + [n], Remove(remaining, n), solution, avoidRepeats)
  {
    var cage', remaining' := cage + [n], Remove(remaining, n);
    assert CellsInBounds(cage');
    forall i | 0 <= i < |cage'| && cage'[i] !in frontier + [n]
      ensures Walled(cage'[i], cage', remaining', solution, avoidRepeats)
    {
      assert i < |cage| && cage'[i] == cage[i] && cage[i] !in frontier;
      forall j | 0 <= j < 4
        ensures !Open(Around(cage[i])[j], cage', remaining', solution, avoidRepeats)
      {
        if Open(Around(cage[i])[j], cage', remaining', solution, avoidRepeats) {
          OpenShrinks(Around(cage[i])[j], cage, remaining, n, solution, avoidRepeats);
        }
      }
    }
  }

  /** Dropping a frontier cell with no open neighbour keeps the invariant. */
  lemma DropKeeps(cage: seq<Cell>, frontier: seq<Cell>, remaining: seq<Cell>, idx: int, solution: Grid, avoidRepeats: bool)
    requires IsGrid(solution) && Growing(cage, frontier, remaining, solution, avoidRepeats)
    requires 0 <= idx < |frontier| && Neighbours(frontier[idx], cage, remaining, solution, avoidRepeats) == []
    ensures Growing(cage, frontier[..idx] + frontier[idx + 1..], remaining, solution, avoidRepeats)
  {
    var f := frontier[idx];
    var rest := frontier[..idx] + frontier[idx + 1..];
    assert frontier == frontier[..idx] + [f] + frontier[idx + 1..];
    assert Walled(f, cage, remaining, solution, avoidRepeats) by {
      forall j | 0 <= j < 4
        ensures !Open(Around(f)[j], cage, remaining, solution, avoidRepeats)
      {
        assert Around(f)[j] in Around(f);
      }
    }
    forall i | 0 <= i < |rest|
      ensures rest[i] in cage
    {
      assert rest[i] in frontier;
    }
    forall i | 0 <= i < |cage| && cage[i] !in rest
      ensures Walled(cage[i], cage, remaining, solution, avoidRepeats)
    {
      if cage[i] != f {
        assert cage[i] !in frontier;
      }
    }
  }

  /** The growing loop keeps its invariant and stops either at the drawn
      size or with every cage cell walled in. */
  lemma {:induction false} GrowKeeps(cage: seq<Cell>, frontier: seq<Cell>, remaining: seq<Cell>, size: int,
                                     solution: Grid, avoidRepeats: bool, rnd: nat -> nat, k: nat)
    requires IsGrid(solution) && Growing(cage, frontier, remaining, solution, avoidRepeats)
    ensures Grown(Grow(cage, frontier, remaining, size, solution, avoidRepeats, rnd, k), size, solution, avoidRepeats)
    decreases size - |cage|, |frontier|, 1
  {
    if |cage| >= size || |frontier| == 0 {
    } else {
      var idx := Pick(rnd, k, |frontier|);
      var ns := Neighbours(frontier[idx], cage, remaining, solution, avoidRepeats);
      var sh := Shuffle(ns, rnd, k + 1);
      if |sh.value| == 0 {
        DropGrown(cage, frontier, remaining, idx, size, solution, avoidRepeats, rnd, sh.next);
      } else {
        var n := sh.value[0];
        ShuffleMembers(ns, rnd, k + 1, n);
        JoinGrown(cage, frontier, remaining, frontier[idx], n, size, solution, avoidRepeats, rnd, sh.next);
      }
    }
  }

  /** The round that drops frontier cell idx, which has no open neighbour,
      ends in the loop's exit condition too. */
  lemma {:induction false} DropGrown(cage: seq<Cell>, frontier: seq<Cell>, remaining: seq<Cell>, idx: int, size: int,
                                     solution: Grid, avoidRepeats: bool, rnd: nat -> nat, k: nat)
    requires IsGrid(solution) && Growing(cage, frontier, remaining, solution, avoidRepeats)
    requires 0 <= idx < |frontier| && Neighbours(frontier[idx], cage, remaining, solution, avoidRepeats) == []
    ensures Grown(Grow(cage, frontier[..idx] + frontier[idx + 1..], remaining, size, solution, avoidRepeats, rnd, k), size, solution, avoidRepeats)
    decreases size - |cage|, |frontier|, 0
  {
    DropKeeps(cage, frontier, remaining, idx, solution, avoidRepeats);
    GrowKeeps(cage, frontier[..idx] + frontier[idx + 1..], remaining, size, solution, avoidRepeats, rnd, k);
  }

  /** The round that adds an open neighbour n of a frontier cell f ends in
      the loop's exit condition too. */
  lemma {:induction false} JoinGrown(cage: seq<Cell>, frontier: seq<Cell>, remaining: seq<Cell>, f: Cell, n: Cell, size: int,
                                     solution: Grid, avoidRepeats: bool, rnd: nat -> nat, k: nat)
    requires IsGrid(solution) && Growing(cage, frontier, remaining, solution, avoidRepeats) && |cage| < size
    requires f in frontier && n in Around(f) && Open(n, cage, remaining, solution, avoidRepeats)
    ensures Grown(Join(cage, frontier, remaining, n, size, solution, avoidRepeats, rnd, k), size, solution, avoidRepeats)
    decreases size - |cage|, 0, 0
  {
    JoinKeeps(cage, frontier, remaining, f, n, solution, avoidRepeats);
    RemoveFacts(remaining, n);
    GrowKeeps(cage + [n], frontier + [n], Remove(remaining, n), size, solution, avoidRepeats, rnd, k);
  }

  /** All the cells of the cages, cage after cage. */
  function CageCells(cages: seq<Cage>): seq<Cell> {
    if |cages| == 0 then [] else cages[0].cells + CageCells(cages[1..])
  }

  /** One round of the outer `while (remaining.size)` loop up to the sum:
      the first draw picks the start cell among the unassigned ones, the
      second the size `Math.max(1, Math.min(4, floor(random * 4) + 1))`, and
      the growing loop draws from the third on. */
  function Round(remaining: seq<Cell>, solution: Grid, avoidRepeats: bool, rnd: nat -> nat, k: nat): (g: Growth)
    requires IsGrid(solution) && CellsInBounds(remaining) && Distinct(remaining) && |remaining| > 0
    ensures CellsInBounds(g.cage) && CellsInBounds(g.remaining) && Distinct(g.remaining)
    ensures multiset(g.cage) + multiset(g.remaining) == multiset(remaining)
    ensures |g.remaining| < |remaining|
  {
    var pick := remaining[Pick(rnd, k, |remaining|)];
    var drawn := Pick(rnd, k + 1, 4) + 1;
    var size := if drawn < 1 then 1 else if drawn > 4 then 4 else drawn;
    RemoveFacts(remaining, pick);
    Grow([pick], [pick], Remove(remaining, pick), size, solution, avoidRepeats, rnd, k + 2)
  }

  /** The outer loop: a round, then the cage with the sum of the solution's
      digits under it, then the rounds after it. */
  function BuildCages(remaining: seq<Cell>, solution: Grid, avoidRepeats: bool, rnd: nat -> nat, k: nat): (res: Drawn<seq<Cage>>)
    requires IsGrid(solution) && CellsInBounds(remaining) && Distinct(remaining)
    ensures multiset(CageCells(res.value)) == multiset(remaining)
    decreases |remaining|
  {
    if |remaining| == 0 then Drawn([], k)
    else
      var g := Round(remaining, solution, avoidRepeats, rnd, k);
      var rest := BuildCages(g.remaining, solution, avoidRepeats, rnd, g.next);
      var cage := Cage(g.cage, CellSum(solution, g.cage));
      assert CageCells([cage] + rest.value) == g.cage + CageCells(rest.value);
      Drawn([cage] + rest.value, rest.next)
  }

  /** `generateKillerCages(solution)` as written. */
  function GenerateKillerCages(solution: Grid, rnd: nat -> nat, k: nat): (res: Drawn<seq<Cage>>)
    requires IsGrid(solution)
    ensures multiset(CageCells(res.value)) == multiset(AllCells())
  {
    AllCellsFacts();
    BuildCages(AllCells(), solution, false, rnd, k)
  }

  /** The generator with the repeated-digit check added to the neighbour
      filter. */
  function GenerateDistinctKillerCages(solution: Grid, rnd: nat -> nat, k: nat): (res: Drawn<seq<Cage>>)
    requires IsGrid(solution)
    ensures multiset(CageCells(res.value)) == multiset(AllCells())
  {
    AllCellsFacts();
    BuildCages(AllCells(), solution, true, rnd, k)
  }

  /** What every generated cage satisfies: 1 to 4 cells in the grid, one
      connected piece, the solution's digits under it as its sum, and, for
      the corrected generator, no digit twice. */
  ghost predicate CageShape(cage: Cage, solution: Grid, avoidRepeats: bool)
    requires IsGrid(solution)
  {
    && 1 <= |cage.cells| <= 4 && CellsInBounds(cage.cells)
    && Distinct(cage.cells) && Connected(cage.cells)
    && cage.sum == CellSum(solution, cage.cells)
    && (avoidRepeats ==> DistinctDigits(solution, cage.cells))
  }

  /** The cage of one round has the shape every generated cage has. */
  lemma RoundShape(remaining: seq<Cell>, solution: Grid, avoidRepeats: bool, rnd: nat -> nat, k: nat)
    requires IsGrid(solution) && CellsInBounds(remaining) && Distinct(remaining) && |remaining| > 0
    ensures CageShape(Cage(Round(remaining, solution, avoidRepeats, rnd, k).cage,
                           CellSum(solution, Round(remaining, solution, avoidRepeats, rnd, k).cage)), solution, avoidRepeats)
  {
    var pick := remaining[Pick(rnd, k, |remaining|)];
    var drawn := Pick(rnd, k + 1, 4) + 1;
    var size := if drawn < 1 then 1 else if drawn > 4 then 4 else drawn;
    RemoveFacts(remaining, pick);
    GrowStart(pick, remaining, solution, avoidRepeats);
    GrowKeeps([pick], [pick], Remove(remaining, pick), size, solution, avoidRepeats, rnd, k + 2);
  }

  /** Every cage the outer loop produces has the shape above. */
  lemma {:induction false} BuildCagesShape(remaining: seq<Cell>, solution: Grid, avoidRepeats: bool, rnd: nat -> nat, k: nat)
    requires IsGrid(solution) && CellsInBounds(remaining) && Distinct(remaining)
    ensures forall i | 0 <= i < |BuildCages(remaining, solution, avoidRepeats, rnd, k).value| ::
      CageShape(BuildCages(remaining, solution, avoidRepeats, rnd, k).value[i], solution, avoidRepeats)
    decreases |remaining|
  {
    if |remaining| == 0 {
      assert BuildCages(remaining, solution, avoidRepeats, rnd, k).value == [];
    } else {
      var g := Round(remaining, solution, avoidRepeats, rnd, k);
      var rest := BuildCages(g.remaining, solution, avoidRepeats, rnd, g.next).value;
      RoundShape(remaining, solution, avoidRepeats, rnd, k);
      BuildCagesShape(g.remaining, solution, avoidRepeats, rnd, g.next);
      ShapesCons(Cage(g.cage, CellSum(solution, g.cage)), rest, solution, avoidRepeats);
    }
  }

  /** A cage of the shape in front of cages of the shape. */
  lemma ShapesCons(cage: Cage, rest: seq<Cage>, solution: Grid, avoidRepeats: bool)
    requires IsGrid(solution) && CageShape(cage, solution, avoidRepeats)
    requires forall i | 0 <= i < |rest| :: CageShape(rest[i], solution, avoidRepeats)
    ensures forall i | 0 <= i < |[cage] + rest| :: CageShape(([cage] + rest)[i], solution, avoidRepeats)
  {
    forall i | 0 < i < |[cage] + rest|
      ensures CageShape(([cage] + rest)[i], solution, avoidRepeats)
    {
      assert ([cage] + rest)[i] == rest[i - 1];
    }
  }

  /** A list of cells in the cage of index i is in the concatenation. */
  lemma {:induction false} CageCellsMember(cages: seq<Cage>, i: int, x: Cell)
    requires 0 <= i < |cages| && x in cages[i].cells
    ensures x in CageCells(cages)
  {
    if i > 0 {
      CageCellsMember(cages[1..], i - 1, x);
    }
  }

  /** A concatenation without repeats: both halves without repeats and no
      cell in both. */
  lemma DistinctConcat(a: seq<Cell>, b: seq<Cell>)
    requires Distinct(a + b)
    ensures Distinct(a) && Distinct(b)
    ensures forall i | 0 <= i < |a| :: a[i] !in b
  {
    assert forall i | 0 <= i < |a| :: (a + b)[i] == a[i];
    assert forall j | 0 <= j < |b| :: (a + b)[|a| + j] == b[j];
  }

  /** When no cell appears twice across all the cages, the cages are well
      formed in the solver's sense: no cell twice in a cage, no cell in two
      cages. */
  lemma {:induction false} CagesWellFormedFromCells(cages: seq<Cage>)
    requires Distinct(CageCells(cages)) && CellsInBounds(CageCells(cages))
    ensures CagesWellFormed(cages)
  {
    forall i | 0 <= i < |cages|
      ensures CellsInBounds(cages[i].cells)
    {
      forall t | 0 <= t < |cages[i].cells|
        ensures InBounds(cages[i].cells[t].row, cages[i].cells[t].col)
      {
        CageCellsMember(cages, i, cages[i].cells[t]);
      }
    }
    if |cages| > 0 {
      DistinctConcat(cages[0].cells, CageCells(cages[1..]));
      assert CellsInBounds(CageCells(cages[1..])) by {
        forall t | 0 <= t < |CageCells(cages[1..])|
          ensures InBounds(CageCells(cages[1..])[t].row, CageCells(cages[1..])[t].col)
        {
          assert CageCells(cages[1..])[t] == CageCells(cages)[|cages[0].cells| + t];
        }
      }
      CagesWellFormedFromCells(cages[1..]);
      forall i, j, t | 0 <= i < j < |cages| && 0 <= t < |cages[i].cells|
        ensures cages[i].cells[t] !in cages[j].cells
      {
        if i == 0 {
          if cages[0].cells[t] in cages[j].cells {
            CageCellsMember(cages[1..], j - 1, cages[0].cells[t]);
          }
        } else {
          assert cages[1..][i - 1] == cages[i] && cages[1..][j - 1] == cages[j];
        }
      }
      forall i | 0 <= i < |cages|
        ensures Distinct(cages[i].cells)
      {
        if i > 0 {
          assert cages[1..][i - 1] == cages[i];
        }
      }
    }
  }

  /** Sum of the cages' target sums. */
  function TotalSum(cages: seq<Cage>): int {
    if |cages| == 0 then 0 else cages[0].sum + TotalSum(cages[1..])
  }

  /** When each cage's sum is the solution's digits under it, the sums add up
      to the digits under all the cages. */
  lemma {:induction false} TotalSumIsCellSum(cages: seq<Cage>, solution: Grid)
    requires IsGrid(solution) && CellsInBounds(CageCells(cages))
    requires forall i | 0 <= i < |cages| :: CellsInBounds(cages[i].cells) && cages[i].sum == CellSum(solution, cages[i].cells)
    ensures TotalSum(cages) == CellSum(solution, CageCells(cages))
  {
    if |cages| > 0 {
      assert CellsInBounds(CageCells(cages[1..])) by {
        forall t | 0 <= t < |CageCells(cages[1..])|
          ensures InBounds(CageCells(cages[1..])[t].row, CageCells(cages[1..])[t].col)
        {
          assert CageCells(cages[1..])[t] == CageCells(cages)[|cages[0].cells| + t];
        }
      }
      assert forall i | 0 <= i < |cages| - 1 :: cages[1..][i] == cages[i + 1];
      TotalSumIsCellSum(cages[1..], solution);
      CellSumAppend(solution, cages[0].cells, CageCells(cages[1..]));
    }
  }
}
