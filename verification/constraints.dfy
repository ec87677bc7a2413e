/** The rules the solver's masks stand for, stated on the grid itself: units,
    peers, conflicts, the digits present in a unit, and the agreement between
    the masks of a `Solver.State` and a grid. */
module Constraints {
  import opened Board
  import opened Solver
  import opened SeqFacts

  /** A unit whose cells must hold distinct digits. */
  datatype Unit = RowUnit(i: int) | ColUnit(i: int) | BoxUnit(i: int) | MainDiag | AntiDiag | CageUnit(i: int)

  predicate InUnit(rules: Rules, u: Unit, r: int, c: int)
    requires InBounds(r, c)
  {
    match u
    case RowUnit(i) => r == i
    case ColUnit(i) => c == i
    case BoxUnit(i) => BoxIndex(r, c) == i
    case MainDiag => r == c
    case AntiDiag => r + c == 8
    case CageUnit(i) => CageIndexOf(rules.cages, r, c) == i
  }

  /** The digits present in unit u. */
  ghost function Digits(rules: Rules, g: Grid, u: Unit): set<int>
    requires IsGrid(g)
  {
    set r, c | 0 <= r < 9 && 0 <= c < 9 && InUnit(rules, u, r, c) && g[r][c] != 0 :: g[r][c]
  }

  /** Two different cells that share an active unit: a row, a column, a box,
      a diagonal under Diagonal, or the cage that owns them. */
  predicate Peers(rules: Rules, r1: int, c1: int, r2: int, c2: int)
    requires InBounds(r1, c1) && InBounds(r2, c2)
  {
    && (r1 != r2 || c1 != c2)
    && (|| r1 == r2
        || c1 == c2
        || BoxIndex(r1, c1) == BoxIndex(r2, c2)
        || (rules.variant == Diagonal && ((r1 == c1 && r2 == c2) || (r1 + c1 == 8 && r2 + c2 == 8)))
        || (CageIndexOf(rules.cages, r1, c1) != -1
            && CageIndexOf(rules.cages, r1, c1) == CageIndexOf(rules.cages, r2, c2)))
  }

  /** No digit is repeated within an active unit. */
  ghost predicate NoConflict(rules: Rules, g: Grid)
    requires IsGrid(g)
  {
    forall r1, c1, r2, c2 | InBounds(r1, c1) && InBounds(r2, c2) && Peers(rules, r1, c1, r2, c2) && g[r1][c1] != 0 ::
      g[r1][c1] != g[r2][c2]
  }

  /** Some peer of (r, c) already holds v. */
  ghost predicate Clash(rules: Rules, g: Grid, r: int, c: int, v: int)
    requires IsGrid(g) && InBounds(r, c)
  {
    exists r2, c2 | InBounds(r2, c2) && Peers(rules, r, c, r2, c2) :: g[r2][c2] == v
  }

  /** Cages are in bounds, list distinct cells, and do not overlap. */
  predicate CagesWellFormed(cages: seq<Cage>) {
    && CagesInBounds(cages)
    && (forall i | 0 <= i < |cages| :: Distinct(cages[i].cells))
    && (forall i, j, k | 0 <= i < j < |cages| && 0 <= k < |cages[i].cells| :: cages[i].cells[k] !in cages[j].cells)
  }

  /** The masks of `st` are exactly the digits and cage sums of `g`. */
  ghost predicate MasksMatch(rules: Rules, st: State, g: Grid)
    requires Ready(rules, st) && IsGrid(g)
  {
    && (forall i | 0 <= i < 9 :: st.rows[i] == Digits(rules, g, RowUnit(i)))
    && (forall i | 0 <= i < 9 :: st.cols[i] == Digits(rules, g, ColUnit(i)))
    && (forall i | 0 <= i < 9 :: st.boxes[i] == Digits(rules, g, BoxUnit(i)))
    && st.diag1 == (if rules.variant == Diagonal then Digits(rules, g, MainDiag) else {})
    && st.diag2 == (if rules.variant == Diagonal then Digits(rules, g, AntiDiag) else {})
    && (forall i | 0 <= i < |rules.cages| :: st.cageUsed[i] == Digits(rules, g, CageUnit(i)))
    && (forall i | 0 <= i < |rules.cages| :: st.cageSum[i] == CellSum(g, rules.cages[i].cells))
  }

  /** Under well-formed cages the owner table agrees with cage membership. */
  lemma CageIndexOfMember(cages: seq<Cage>, r: int, c: int, i: int)
    requires CagesWellFormed(cages) && 0 <= i < |cages|
    ensures CageIndexOf(cages, r, c) == i <==> Cell(r, c) in cages[i].cells
  {
    var ci := CageIndexOf(cages, r, c);
    if Cell(r, c) in cages[i].cells {
      var k :| 0 <= k < |cages[i].cells| && cages[i].cells[k] == Cell(r, c);
      assert ci == i;
    }
  }

  /** Writing a digit into an empty cell adds it to the units of that cell
      and to no other unit. */
  lemma DigitsAfterSet(rules: Rules, g: Grid, u: Unit, r: int, c: int, v: int)
    requires IsGrid(g) && InBounds(r, c) && g[r][c] == 0 && 1 <= v <= 9
    ensures Digits(rules, SetCell(g, r, c, v), u)
         == Digits(rules, g, u) + (if InUnit(rules, u, r, c) then {v} else {})
  {
    var g' := SetCell(g, r, c, v);
    var lhs := Digits(rules, g', u);
    var rhs := Digits(rules, g, u) + (if InUnit(rules, u, r, c) then {v} else {});
    forall x | x in lhs
      ensures x in rhs
    {
      var r2, c2 :| 0 <= r2 < 9 && 0 <= c2 < 9 && InUnit(rules, u, r2, c2) && g'[r2][c2] != 0 && g'[r2][c2] == x;
      if r2 != r || c2 != c {
        assert g[r2][c2] == x;
      }
    }
    forall x | x in rhs
      ensures x in lhs
    {
      if x in Digits(rules, g, u) {
        var r2, c2 :| 0 <= r2 < 9 && 0 <= c2 < 9 && InUnit(rules, u, r2, c2) && g[r2][c2] != 0 && g[r2][c2] == x;
        assert g'[r2][c2] == x;
      } else {
        assert g'[r][c] == x;
      }
    }
  }

  /** Writing v into an empty cell sums into every cage listing that cell once. */
  lemma {:induction false} CellSumAfterSet(g: Grid, cells: seq<Cell>, r: int, c: int, v: int)
    requires IsGrid(g) && CellsInBounds(cells) && Distinct(cells)
    requires InBounds(r, c) && g[r][c] == 0 && 1 <= v <= 9
    ensures CellSum(SetCell(g, r, c, v), cells) == CellSum(g, cells) + (if Cell(r, c) in cells then v else 0)
    ensures CountEmpty(SetCell(g, r, c, v), cells) == CountEmpty(g, cells) - (if Cell(r, c) in cells then 1 else 0)
  {
    if |cells| > 0 {
      assert Distinct(cells[1..]);
      assert CellsInBounds(cells[1..]);
      CellSumAfterSet(g, cells[1..], r, c, v);
      if cells[0] == Cell(r, c) {
        assert Cell(r, c) !in cells[1..];
      }
    }
  }

  /** Against matching masks, `Taken` is exactly "some peer holds v". */
  lemma TakenIffClash(rules: Rules, st: State, g: Grid, r: int, c: int, v: int)
    requires Ready(rules, st) && IsGrid(g) && MasksMatch(rules, st, g)
    requires InBounds(r, c) && g[r][c] == 0 && 1 <= v <= 9
    ensures Taken(rules, st, r, c, v) <==> Clash(rules, g, r, c, v)
  {
    if Taken(rules, st, r, c, v) {
      TakenClash(rules, st, g, r, c, v);
    }
    if Clash(rules, g, r, c, v) {
      ClashTaken(rules, st, g, r, c, v);
    }
  }

  /** A digit marked in a mask of (r, c) is held by a peer. */
  lemma TakenClash(rules: Rules, st: State, g: Grid, r: int, c: int, v: int)
    requires Ready(rules, st) && IsGrid(g) && MasksMatch(rules, st, g)
    requires InBounds(r, c) && g[r][c] == 0 && 1 <= v <= 9
    requires Taken(rules, st, r, c, v)
    ensures Clash(rules, g, r, c, v)
  {
    var b := BoxIndex(r, c);
    var ci := CageIndexOf(rules.cages, r, c);
    var u :=
      if v in st.rows[r] then RowUnit(r)
      else if v in st.cols[c] then ColUnit(c)
      else if v in st.boxes[b] then BoxUnit(b)
      else if rules.variant == Diagonal && r == c && v in st.diag1 then MainDiag
      else if rules.variant == Diagonal && r + c == 8 && v in st.diag2 then AntiDiag
      else CageUnit(ci);
    assert v in Digits(rules, g, u);
    var r2, c2 :| 0 <= r2 < 9 && 0 <= c2 < 9 && InUnit(rules, u, r2, c2) && g[r2][c2] != 0 && g[r2][c2] == v;
    assert Peers(rules, r, c, r2, c2);
  }

  /** A digit held by a peer is marked in a mask of (r, c). */
  lemma ClashTaken(rules: Rules, st: State, g: Grid, r: int, c: int, v: int)
    requires Ready(rules, st) && IsGrid(g) && MasksMatch(rules, st, g)
    requires InBounds(r, c) && g[r][c] == 0 && 1 <= v <= 9
    requires Clash(rules, g, r, c, v)
    ensures Taken(rules, st, r, c, v)
  {
    var b := BoxIndex(r, c);
    var ci := CageIndexOf(rules.cages, r, c);
    var r2, c2 :| InBounds(r2, c2) && Peers(rules, r, c, r2, c2) && g[r2][c2] == v;
    if r2 == r {
      assert v in Digits(rules, g, RowUnit(r));
    } else if c2 == c {
      assert v in Digits(rules, g, ColUnit(c));
    } else if BoxIndex(r2, c2) == b {
      assert v in Digits(rules, g, BoxUnit(b));
    } else if rules.variant == Diagonal && r == c && r2 == c2 {
      assert v in Digits(rules, g, MainDiag);
    } else if rules.variant == Diagonal && r + c == 8 && r2 + c2 == 8 {
      assert v in Digits(rules, g, AntiDiag);
    } else {
      assert v in Digits(rules, g, CageUnit(ci));
    }
  }

  /** Writing v into an empty cell keeps the grid conflict-free exactly when
      no peer already holds v. */
  lemma NoConflictAfterSet(rules: Rules, g: Grid, r: int, c: int, v: int)
    requires IsGrid(g) && InBounds(r, c) && g[r][c] == 0 && 1 <= v <= 9
    ensures NoConflict(rules, SetCell(g, r, c, v)) <==> NoConflict(rules, g) && !Clash(rules, g, r, c, v)
  {
    var g' := SetCell(g, r, c, v);
    if NoConflict(rules, g') {
      forall r1, c1, r2, c2 | InBounds(r1, c1) && InBounds(r2, c2) && Peers(rules, r1, c1, r2, c2) && g[r1][c1] != 0
        ensures g[r1][c1] != g[r2][c2]
      {
        assert r1 != r || c1 != c;
        if r2 != r || c2 != c {
          assert g'[r1][c1] != g'[r2][c2];
        }
      }
      forall r2, c2 | InBounds(r2, c2) && Peers(rules, r, c, r2, c2)
        ensures g[r2][c2] != v
      {
        assert g'[r][c] != g'[r2][c2];
      }
    }
    if NoConflict(rules, g) && !Clash(rules, g, r, c, v) {
      forall r1, c1, r2, c2 | InBounds(r1, c1) && InBounds(r2, c2) && Peers(rules, r1, c1, r2, c2) && g'[r1][c1] != 0
        ensures g'[r1][c1] != g'[r2][c2]
      {
        if r1 == r && c1 == c {
          assert g'[r2][c2] == g[r2][c2];
        } else if r2 == r && c2 == c {
          assert Peers(rules, r2, c2, r1, c1);
          assert g'[r1][c1] == g[r1][c1];
        }
      }
    }
  }

  /** The mask updates of a placement keep the masks matched to the grid the
      placement writes. */
  lemma AddMasksMatch(rules: Rules, st: State, g: Grid, r: int, c: int, v: int)
    requires CagesWellFormed(rules.cages)
    requires Ready(rules, st) && IsGrid(g) && MasksMatch(rules, st, g)
    requires InBounds(r, c) && g[r][c] == 0 && 1 <= v <= 9
    ensures MasksMatch(rules, AddMasks(rules, st, r, c, v), SetCell(g, r, c, v))
  {
    var st' := AddMasks(rules, st, r, c, v);
    var g' := SetCell(g, r, c, v);
    AddMasksMatchLines(rules, st, g, r, c, v);
    DigitsAfterSet(rules, g, MainDiag, r, c, v);
    DigitsAfterSet(rules, g, AntiDiag, r, c, v);
    AddMasksMatchCages(rules, st, g, r, c, v);
  }

  lemma AddMasksMatchLines(rules: Rules, st: State, g: Grid, r: int, c: int, v: int)
    requires Ready(rules, st) && IsGrid(g) && MasksMatch(rules, st, g)
    requires InBounds(r, c) && g[r][c] == 0 && 1 <= v <= 9
    ensures forall i | 0 <= i < 9 ::
      && AddMasks(rules, st, r, c, v).rows[i] == Digits(rules, SetCell(g, r, c, v), RowUnit(i))
      && AddMasks(rules, st, r, c, v).cols[i] == Digits(rules, SetCell(g, r, c, v), ColUnit(i))
      && AddMasks(rules, st, r, c, v).boxes[i] == Digits(rules, SetCell(g, r, c, v), BoxUnit(i))
  {
    var st' := AddMasks(rules, st, r, c, v);
    var g' := SetCell(g, r, c, v);
    forall i | 0 <= i < 9
      ensures st'.rows[i] == Digits(rules, g', RowUnit(i))
      ensures st'.cols[i] == Digits(rules, g', ColUnit(i))
      ensures st'.boxes[i] == Digits(rules, g', BoxUnit(i))
    {
      DigitsAfterSet(rules, g, RowUnit(i), r, c, v);
      DigitsAfterSet(rules, g, ColUnit(i), r, c, v);
      DigitsAfterSet(rules, g, BoxUnit(i), r, c, v);
    }
  }

  lemma AddMasksMatchCages(rules: Rules, st: State, g: Grid, r: int, c: int, v: int)
    requires CagesWellFormed(rules.cages)
    requires Ready(rules, st) && IsGrid(g) && MasksMatch(rules, st, g)
    requires InBounds(r, c) && g[r][c] == 0 && 1 <= v <= 9
    ensures forall i | 0 <= i < |rules.cages| ::
      && AddMasks(rules, st, r, c, v).cageUsed[i] == Digits(rules, SetCell(g, r, c, v), CageUnit(i))
      && AddMasks(rules, st, r, c, v).cageSum[i] == CellSum(SetCell(g, r, c, v), rules.cages[i].cells)
  {
    var st' := AddMasks(rules, st, r, c, v);
    var g' := SetCell(g, r, c, v);
    forall i | 0 <= i < |rules.cages|
      ensures st'.cageUsed[i] == Digits(rules, g', CageUnit(i))
      ensures st'.cageSum[i] == CellSum(g', rules.cages[i].cells)
    {
      DigitsAfterSet(rules, g, CageUnit(i), r, c, v);
      CellSumAfterSet(g, rules.cages[i].cells, r, c, v);
      CageIndexOfMember(rules.cages, r, c, i);
    }
  }
}
