/** Sums and counts over lists of cells do not depend on how the list is
    split or ordered; the coordinate list of the grid lists every cell once. */
module Tally {
  import opened Board
  import opened SeqFacts

  lemma {:induction false} CellSumAppend(g: Grid, a: seq<Cell>, b: seq<Cell>)
    requires IsGrid(g) && CellsInBounds(a) && CellsInBounds(b)
    ensures CellsInBounds(a + b)
    ensures CellSum(g, a + b) == CellSum(g, a) + CellSum(g, b)
  {
    if |a| > 0 {
      assert (a + b)[1..] == a[1..] + b;
      assert CellsInBounds(a[1..]);
      CellSumAppend(g, a[1..], b);
    } else {
      assert a + b == b;
    }
  }

  /** Taking one cell out of a list takes its value out of the sum. */
  lemma CellSumRemove(g: Grid, b: seq<Cell>, i: int)
    requires IsGrid(g) && CellsInBounds(b) && 0 <= i < |b|
    ensures CellsInBounds(b[..i] + b[i+1..])
    ensures CellSum(g, b) == g[b[i].row][b[i].col] + CellSum(g, b[..i] + b[i+1..])
  {
    var x := b[i];
    assert b == b[..i] + [x] + b[i+1..];
    assert CellsInBounds(b[..i]) && CellsInBounds(b[i+1..]) && CellsInBounds([x]);
    CellSumAppend(g, b[..i], b[i+1..]);
    CellSumAppend(g, b[..i], [x]);
    CellSumAppend(g, b[..i] + [x], b[i+1..]);
    assert CellSum(g, [x]) == g[x.row][x.col] + CellSum(g, []);
  }

  /** A cell sum does not depend on the order of the cells. */
  lemma {:induction false} CellSumPermutation(g: Grid, a: seq<Cell>, b: seq<Cell>)
    requires IsGrid(g) && CellsInBounds(a) && CellsInBounds(b) && multiset(a) == multiset(b)
    ensures CellSum(g, a) == CellSum(g, b)
    decreases |a|
  {
    if |a| == 0 {
      assert |b| == |multiset(b)| == 0;
    } else {
      var i := RemoveFirst(a, b);
      assert CellsInBounds(a[1..]);
      CellSumRemove(g, b, i);
      CellSumPermutation(g, a[1..], b[..i] + b[i+1..]);
    }
  }

  /** 1 where `g` is empty, 0 elsewhere. */
  function EmptyMarks(g: Grid): (m: Grid)
    requires IsGrid(g)
    ensures IsGrid(m)
    ensures forall r, c | 0 <= r < 9 && 0 <= c < 9 :: m[r][c] == if g[r][c] == 0 then 1 else 0
  {
    seq(9, r requires 0 <= r < 9 => seq(9, c requires 0 <= c < 9 => if g[r][c] == 0 then 1 else 0))
  }

  /** Counting empty cells is summing their marks. */
  lemma {:induction false} CountEmptyIsSum(g: Grid, cells: seq<Cell>)
    requires IsGrid(g) && CellsInBounds(cells)
    ensures CountEmpty(g, cells) == CellSum(EmptyMarks(g), cells)
  {
    if |cells| > 0 {
      assert CellsInBounds(cells[1..]);
      CountEmptyIsSum(g, cells[1..]);
    }
  }

  /** The number of empty cells does not depend on the order of the cells. */
  lemma CountEmptyPermutation(g: Grid, a: seq<Cell>, b: seq<Cell>)
    requires IsGrid(g) && CellsInBounds(a) && CellsInBounds(b) && multiset(a) == multiset(b)
    ensures CountEmpty(g, a) == CountEmpty(g, b)
  {
    CountEmptyIsSum(g, a);
    CountEmptyIsSum(g, b);
    CellSumPermutation(EmptyMarks(g), a, b);
  }

  lemma CountEmptyAppend(g: Grid, a: seq<Cell>, b: seq<Cell>)
    requires IsGrid(g) && CellsInBounds(a) && CellsInBounds(b)
    ensures CellsInBounds(a + b)
    ensures CountEmpty(g, a + b) == CountEmpty(g, a) + CountEmpty(g, b)
  {
    CountEmptyIsSum(g, a);
    CountEmptyIsSum(g, b);
    CellSumAppend(EmptyMarks(g), a, b);
    CountEmptyIsSum(g, a + b);
  }

  /** A list of empty cells counts all of them; a list of filled cells counts
      none. */
  lemma {:induction false} CountEmptyUniform(g: Grid, cells: seq<Cell>)
    requires IsGrid(g) && CellsInBounds(cells)
    ensures (forall k | 0 <= k < |cells| :: g[cells[k].row][cells[k].col] == 0) ==> CountEmpty(g, cells) == |cells|
    ensures (forall k | 0 <= k < |cells| :: g[cells[k].row][cells[k].col] != 0) ==> CountEmpty(g, cells) == 0
  {
    if |cells| > 0 {
      assert CellsInBounds(cells[1..]);
      CountEmptyUniform(g, cells[1..]);
      assert forall k | 0 <= k < |cells| - 1 :: cells[1..][k] == cells[k + 1];
    }
  }

  /** The coordinate list holds every cell of the grid exactly once. */
  lemma AllCellsFacts()
    ensures Distinct(AllCells()) && CellsInBounds(AllCells())
  {
    var cs := AllCells();
    forall i, j | 0 <= i < j < |cs|
      ensures cs[i] != cs[j]
    {
      assert Pos(cs[i].row, cs[i].col) != Pos(cs[j].row, cs[j].col);
    }
  }

  /** Cell (r, c) sits at its row-major position in the coordinate list. */
  lemma AllCellsAt(r: int, c: int)
    requires InBounds(r, c)
    ensures AllCells()[Pos(r, c)] == Cell(r, c)
  {
    var x := AllCells()[Pos(r, c)];
    assert InBounds(x.row, x.col) && 9 * x.row + x.col == 9 * r + c;
  }

  lemma AllCellsMember(r: int, c: int)
    requires InBounds(r, c)
    ensures Cell(r, c) in AllCells()
  {
    AllCellsAt(r, c);
  }
}
