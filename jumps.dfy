// The jump rule: the six directions, when a jump is legal, the board it
// produces, and the order in which the search tries the jumps of a board.

module Jumps {
  import opened Cells

  const NumOffsets: nat := 6

  /** rowoffsets and coloffsets: up-left, up-right, down-left, down-right,
      left, right. A horizontal neighbour is two columns away. */
  const RowOffsets: seq<int> := [-1, -1, 1, 1, 0, 0]
  const ColOffsets: seq<int> := [-1, 1, -1, 1, -2, 2]

  lemma OffsetBounds(i: nat)
    requires i < NumOffsets
    ensures -1 <= RowOffsets[i] <= 1 && -2 <= ColOffsets[i] <= 2
    ensures RowOffsets[i] != 0 || ColOffsets[i] != 0
    ensures (RowOffsets[i] + ColOffsets[i]) % 2 == 0
  {
    assert i == 0 || i == 1 || i == 2 || i == 3 || i == 4 || i == 5;
  }

  /** A jump: the peg at (row, col) jumps in direction `offnum`. */
  datatype Move = Move(row: nat, col: nat, offnum: nat)

  /** The cell jumped over. */
  function Over(m: Move): (int, int)
    requires m.offnum < NumOffsets
  {
    (m.row + RowOffsets[m.offnum], m.col + ColOffsets[m.offnum])
  }

  /** The cell the peg lands on, two steps away. */
  function Landing(m: Move): (int, int)
    requires m.offnum < NumOffsets
  {
    (m.row + 2 * RowOffsets[m.offnum], m.col + 2 * ColOffsets[m.offnum])
  }

  /** The test made for each direction from a cell that holds a peg: the
      neighbour holds a peg and the cell beyond it is exactly empty (neither
      invalid nor occupied). As with C's `&&`, the cell beyond is only read
      when the neighbour holds a peg, which keeps it inside the grid. */
  predicate CanJump(g: Grid, r: nat, c: nat, i: nat)
    requires WellFormed(g) && r < NumRows && c < NumCols && i < NumOffsets
    requires HasPeg(g[r][c])
  {
    PegOnTriangle(g, r, c);
    OffsetBounds(i);
    var ro, co := RowOffsets[i], ColOffsets[i];
    HasPeg(g[r + ro][c + co]) &&
    (PegOnTriangle(g, r + ro, c + co);
     g[r + 2 * ro][c + 2 * co] == PosEmpty)
  }

  /** A move the search makes: from a peg, over a peg, into an empty hole. */
  predicate Legal(g: Grid, m: Move)
    requires WellFormed(g)
  {
    m.row < NumRows && m.col < NumCols && m.offnum < NumOffsets &&
    HasPeg(g[m.row][m.col]) && CanJump(g, m.row, m.col, m.offnum)
  }

  /** Every cell a legal move reads or writes lies inside the 9 x 13 grid,
      and indeed on the triangle. */
  lemma LegalInBounds(g: Grid, m: Move)
    requires WellFormed(g) && Legal(g, m)
    ensures OnTriangle(m.row, m.col) && OnTriangle(Over(m).0, Over(m).1)
    ensures OnTriangle(Landing(m).0, Landing(m).1)
    ensures 0 <= Landing(m).0 < NumRows && 0 <= Landing(m).1 < NumCols
    ensures HasPeg(g[Over(m).0][Over(m).1]) && g[Landing(m).0][Landing(m).1] == PosEmpty
  {
    PegOnTriangle(g, m.row, m.col);
    OffsetBounds(m.offnum);
    PegOnTriangle(g, Over(m).0, Over(m).1);
    PegOnTriangle(g, Landing(m).0, Landing(m).1);
  }

  /** The board a legal move produces: a copy of `g` with every last-moved
      mark cleared, then the mover and the jumped peg removed and the
      landing cell set to a marked peg. */
  function Jump(g: Grid, m: Move): (h: Grid)
    requires WellFormed(g) && Legal(g, m)
  {
    LegalInBounds(g, m);
    ClearedLastCells(g);
    var h0 := ClearedLast(g);
    var h1 := Set(h0, m.row, m.col, PosEmpty);
    var h2 := Set(h1, Over(m).0, Over(m).1, PosEmpty);
    Set(h2, Landing(m).0, Landing(m).1, PosFull | PosLast)
  }

  /** The grid reached from `g` by clearing the mark and writing the three
      cells of `m` one at a time is `Jump(g, m)`. */
  lemma JumpByWrites(g: Grid, m: Move, h0: Grid, h1: Grid, h2: Grid, h3: Grid)
    requires WellFormed(g) && Legal(g, m) && h0 == ClearedLast(g)
    requires Over(m).0 >= 0 && Over(m).1 >= 0 && Landing(m).0 >= 0 && Landing(m).1 >= 0
    requires m.row < |h0| && m.col < |h0[m.row]| && h1 == Set(h0, m.row, m.col, PosEmpty)
    requires Over(m).0 < |h1| && Over(m).1 < |h1[Over(m).0]| && h2 == Set(h1, Over(m).0, Over(m).1, PosEmpty)
    requires Landing(m).0 < |h2| && Landing(m).1 < |h2[Landing(m).0]|
    requires h3 == Set(h2, Landing(m).0, Landing(m).1, PosFull | PosLast)
    ensures h3 == Jump(g, m)
  {
    ClearedLastCells(g);
  }

  /** A move writes three cells; every other cell is the parent's with the
      last-moved mark cleared. So apart from that cleared mark the child
      differs from its parent in exactly those three cells. */
  lemma JumpCells(g: Grid, m: Move)
    requires WellFormed(g) && Legal(g, m)
    ensures IsGrid(Jump(g, m))
    ensures forall r, c :: 0 <= r < NumRows && 0 <= c < NumCols ==>
      Jump(g, m)[r][c] ==
        if (r, c) == (m.row, m.col) || (r, c) == Over(m) then PosEmpty
        else if (r, c) == Landing(m) then PosFull | PosLast
        else Unmarked(g[r][c])
  {
    LegalInBounds(g, m);
    OffsetBounds(m.offnum);
    ClearedLastCells(g);
    SetThree(ClearedLast(g), m.row, m.col, PosEmpty, Over(m).0, Over(m).1, PosEmpty,
      Landing(m).0, Landing(m).1, PosFull | PosLast);
  }

  /** Three cells written one after the other: the last write to a cell
      wins, and the shape is kept. */
  lemma SetThree(h: Grid, r1: nat, c1: nat, v1: Cell, r2: nat, c2: nat, v2: Cell, r3: nat, c3: nat, v3: Cell)
    requires IsGrid(h) && r1 < NumRows && r2 < NumRows && r3 < NumRows
    requires c1 < NumCols && c2 < NumCols && c3 < NumCols
    ensures IsGrid(Set(Set(Set(h, r1, c1, v1), r2, c2, v2), r3, c3, v3))
    ensures forall r, c :: 0 <= r < NumRows && 0 <= c < NumCols ==>
      Set(Set(Set(h, r1, c1, v1), r2, c2, v2), r3, c3, v3)[r][c] ==
        if (r, c) == (r3, c3) then v3 else if (r, c) == (r2, c2) then v2
        else if (r, c) == (r1, c1) then v1 else h[r][c]
  {
  }

  /** Every move removes exactly one peg. */
  lemma JumpPegCount(g: Grid, m: Move)
    requires WellFormed(g) && Legal(g, m)
    ensures PegCount(Jump(g, m)) == PegCount(g) - 1
  {
    LegalInBounds(g, m);
    OffsetBounds(m.offnum);
    var (ar, ac) := Over(m);
    var (lr, lc) := Landing(m);
    var h0 := ClearedLast(g);
    ClearedLastCells(g);
    PegCountClearedLast(g);
    UnmarkedKeeps(g[m.row][m.col]);
    UnmarkedKeeps(g[ar][ac]);
    var h1 := Set(h0, m.row, m.col, PosEmpty);
    assert HasPeg(h0[m.row][m.col]);
    PegCountRemove(h0, m.row, m.col);
    var h2 := Set(h1, ar, ac, PosEmpty);
    SetCell(h0, m.row, m.col, PosEmpty, ar, ac);
    PegCountRemove(h1, ar, ac);
    CellConstants();
    SetCell(h0, m.row, m.col, PosEmpty, lr, lc);
    SetCell(h1, ar, ac, PosEmpty, lr, lc);
    PegCountAdd(h2, lr, lc);
    assert Jump(g, m) == Set(h2, lr, lc, PosFull | PosLast);
  }

  /** A move never touches an invalid cell, so the border and the triangle
      layout survive every move. */
  lemma JumpWellFormed(g: Grid, m: Move)
    requires WellFormed(g) && Legal(g, m)
    ensures WellFormed(Jump(g, m))
    ensures forall r, c :: 0 <= r < NumRows && 0 <= c < NumCols && g[r][c] == PosInvalid ==>
      Jump(g, m)[r][c] == PosInvalid
  {
    JumpCells(g, m);
    LegalInBounds(g, m);
    UnmarkedKeeps(PosInvalid);
  }

  // ---------------------------------------------------------------------
  // The order of the search: rows top to bottom, columns left to right,
  // directions in table order.

  /** The legal jumps from the peg at (r, c) in the directions 0 .. n-1,
      in table order. */
  function OffsetsUpTo(g: Grid, r: nat, c: nat, n: nat): seq<Move>
    requires WellFormed(g) && r < NumRows && c < NumCols && n <= NumOffsets
    requires HasPeg(g[r][c])
  {
    if n == 0 then []
    else OffsetsUpTo(g, r, c, n - 1) + (if CanJump(g, r, c, n - 1) then [Move(r, c, n - 1)] else [])
  }

  /** The moves from cell (r, c): none unless it holds a peg. */
  function CellMoves(g: Grid, r: nat, c: nat): seq<Move>
    requires WellFormed(g) && r < NumRows && c < NumCols
  {
    if HasPeg(g[r][c]) then OffsetsUpTo(g, r, c, NumOffsets) else []
  }

  /** The moves from the cells (r, 0) .. (r, n-1), left to right. */
  function ColsUpTo(g: Grid, r: nat, n: nat): seq<Move>
    requires WellFormed(g) && r < NumRows && n <= NumCols
  {
    if n == 0 then [] else ColsUpTo(g, r, n - 1) + CellMoves(g, r, n - 1)
  }

  /** The moves from the rows 0 .. n-1, top to bottom. */
  function RowsUpTo(g: Grid, n: nat): seq<Move>
    requires WellFormed(g) && n <= NumRows
  {
    if n == 0 then [] else RowsUpTo(g, n - 1) + ColsUpTo(g, n - 1, NumCols)
  }

  /** Every move of `g`, in the order the search tries them. */
  function Moves(g: Grid): seq<Move>
    requires WellFormed(g)
  {
    RowsUpTo(g, NumRows)
  }

  /** The moves tried once the loops over rows and columns have reached
      (row, col). */
  function TriedCols(g: Grid, row: nat, col: nat): seq<Move>
    requires WellFormed(g) && row < NumRows && col <= NumCols
  {
    RowsUpTo(g, row) + ColsUpTo(g, row, col)
  }

  /** The moves tried once the loops over rows, columns and directions
      have reached (row, col, offnum). */
  function TriedBefore(g: Grid, row: nat, col: nat, offnum: nat): seq<Move>
    requires WellFormed(g) && row < NumRows && col < NumCols && offnum <= NumOffsets
    requires HasPeg(g[row][col])
  {
    TriedCols(g, row, col) + OffsetsUpTo(g, row, col, offnum)
  }

  /** One more direction from a peg: a legal jump is appended, anything
      else leaves the moves tried so far as they are. */
  lemma NextOffset(g: Grid, row: nat, col: nat, offnum: nat)
    requires WellFormed(g) && row < NumRows && col < NumCols && offnum < NumOffsets
    requires HasPeg(g[row][col])
    ensures CanJump(g, row, col, offnum) ==>
      Legal(g, Move(row, col, offnum)) &&
      TriedBefore(g, row, col, offnum + 1) == TriedBefore(g, row, col, offnum) + [Move(row, col, offnum)]
    ensures !CanJump(g, row, col, offnum) ==>
      TriedBefore(g, row, col, offnum + 1) == TriedBefore(g, row, col, offnum)
  {
    var pre := TriedCols(g, row, col);
    var o := OffsetsUpTo(g, row, col, offnum);
    if CanJump(g, row, col, offnum) {
      assert pre + (o + [Move(row, col, offnum)]) == pre + o + [Move(row, col, offnum)];
    } else {
      assert o + [] == o;
    }
  }

  /** Starting a row: nothing of it has been tried yet. */
  lemma FirstCol(g: Grid, row: nat)
    requires WellFormed(g) && row < NumRows
    ensures TriedCols(g, row, 0) == RowsUpTo(g, row)
  {
    assert RowsUpTo(g, row) + [] == RowsUpTo(g, row);
  }

  /** Done with the cell (row, col): a peg there has had its directions
      tried, and an empty or off-board cell adds nothing. */
  lemma NextCol(g: Grid, row: nat, col: nat)
    requires WellFormed(g) && row < NumRows && col < NumCols
    ensures HasPeg(g[row][col]) ==>
      TriedBefore(g, row, col, 0) == TriedCols(g, row, col) &&
      TriedBefore(g, row, col, NumOffsets) == TriedCols(g, row, col + 1)
    ensures !HasPeg(g[row][col]) ==> TriedCols(g, row, col) == TriedCols(g, row, col + 1)
  {
    var pre, cs := RowsUpTo(g, row), ColsUpTo(g, row, col);
    if HasPeg(g[row][col]) {
      assert pre + cs + [] == pre + cs;
      assert pre + cs + CellMoves(g, row, col) == pre + (cs + CellMoves(g, row, col));
    } else {
      assert cs + [] == cs;
    }
  }

  /** Done with a row: the moves tried are those of the rows before
      row + 1. */
  lemma NextRow(g: Grid, row: nat)
    requires WellFormed(g) && row < NumRows
    ensures TriedCols(g, row, NumCols) == RowsUpTo(g, row + 1)
  {
  }

  /** `a` is tried before `b`. */
  predicate Before(a: Move, b: Move) {
    a.row < b.row || (a.row == b.row && (a.col < b.col || (a.col == b.col && a.offnum < b.offnum)))
  }

  predicate Ordered(ms: seq<Move>) {
    forall j, k :: 0 <= j < k < |ms| ==> Before(ms[j], ms[k])
  }

  lemma OrderedAppend(a: seq<Move>, b: seq<Move>)
    requires Ordered(a) && Ordered(b)
    requires forall j, k :: 0 <= j < |a| && 0 <= k < |b| ==> Before(a[j], b[k])
    ensures Ordered(a + b)
  {
    forall j, k | 0 <= j < k < |a + b| ensures Before((a + b)[j], (a + b)[k]) {
      if k < |a| {
      } else if j >= |a| {
        assert (a + b)[j] == b[j - |a|] && (a + b)[k] == b[k - |a|];
      } else {
        assert (a + b)[j] == a[j] && (a + b)[k] == b[k - |a|];
      }
    }
  }

  /** The direction `i` from the peg at (r, c) contributes exactly the
      legal move in that direction, if there is one. */
  lemma OneOffset(g: Grid, r: nat, c: nat, i: nat)
    requires WellFormed(g) && r < NumRows && c < NumCols && i < NumOffsets
    requires HasPeg(g[r][c])
    ensures forall m :: m in (if CanJump(g, r, c, i) then [Move(r, c, i)] else []) <==>
      m.row == r && m.col == c && m.offnum == i && Legal(g, m)
  {
  }

  lemma {:induction false} OffsetsUpToSpec(g: Grid, r: nat, c: nat, n: nat)
    requires WellFormed(g) && r < NumRows && c < NumCols && n <= NumOffsets
    requires HasPeg(g[r][c])
    ensures forall m :: m in OffsetsUpTo(g, r, c, n) <==>
      m.row == r && m.col == c && m.offnum < n && Legal(g, m)
    ensures Ordered(OffsetsUpTo(g, r, c, n))
  {
    if n > 0 {
      var init := OffsetsUpTo(g, r, c, n - 1);
      var last := if CanJump(g, r, c, n - 1) then [Move(r, c, n - 1)] else [];
      OffsetsUpToSpec(g, r, c, n - 1);
      OneOffset(g, r, c, n - 1);
      assert OffsetsUpTo(g, r, c, n) == init + last;
      forall j, k | 0 <= j < |init| && 0 <= k < |last| ensures Before(init[j], last[k]) {
        assert init[j] in init;
      }
      OrderedAppend(init, last);
    }
  }

  lemma CellMovesSpec(g: Grid, r: nat, c: nat)
    requires WellFormed(g) && r < NumRows && c < NumCols
    ensures forall m :: m in CellMoves(g, r, c) <==> m.row == r && m.col == c && Legal(g, m)
    ensures Ordered(CellMoves(g, r, c))
  {
    if HasPeg(g[r][c]) {
      OffsetsUpToSpec(g, r, c, NumOffsets);
    }
  }

  /** The moves from cell (r, c) all start at (r, c), in direction order. */
  lemma CellMovesAt(g: Grid, r: nat, c: nat)
    requires WellFormed(g) && r < NumRows && c < NumCols
    ensures Ordered(CellMoves(g, r, c))
    ensures forall k :: 0 <= k < |CellMoves(g, r, c)| ==>
      CellMoves(g, r, c)[k].row == r && CellMoves(g, r, c)[k].col == c
  {
    CellMovesSpec(g, r, c);
    forall k | 0 <= k < |CellMoves(g, r, c)|
      ensures CellMoves(g, r, c)[k].row == r && CellMoves(g, r, c)[k].col == c
    {
      assert CellMoves(g, r, c)[k] in CellMoves(g, r, c);
    }
  }

  /** Ordered moves of row r left of column c, then ordered moves of cell
      (r, c): ordered moves of row r left of column c + 1. */
  lemma AppendInRow(a: seq<Move>, b: seq<Move>, r: nat, c: nat)
    requires Ordered(a) && forall k :: 0 <= k < |a| ==> a[k].row == r && a[k].col < c
    requires Ordered(b) && forall k :: 0 <= k < |b| ==> b[k].row == r && b[k].col == c
    ensures Ordered(a + b)
    ensures forall k :: 0 <= k < |a + b| ==> (a + b)[k].row == r && (a + b)[k].col < c + 1
  {
    OrderedAppend(a, b);
  }

  lemma {:induction false} ColsUpToMembers(g: Grid, r: nat, n: nat)
    requires WellFormed(g) && r < NumRows && n <= NumCols
    ensures forall m :: m in ColsUpTo(g, r, n) <==> m.row == r && m.col < n && Legal(g, m)
  {
    if n > 0 {
      ColsUpToMembers(g, r, n - 1);
      CellMovesSpec(g, r, n - 1);
      assert ColsUpTo(g, r, n) == ColsUpTo(g, r, n - 1) + CellMoves(g, r, n - 1);
    }
  }

  /** The moves of the cells (r, 0) .. (r, n-1) are in column, then
      direction order, and all start in row r left of column n. */
  lemma {:induction false} ColsUpToOrdered(g: Grid, r: nat, n: nat)
    requires WellFormed(g) && r < NumRows && n <= NumCols
    ensures Ordered(ColsUpTo(g, r, n))
    ensures forall k :: 0 <= k < |ColsUpTo(g, r, n)| ==>
      ColsUpTo(g, r, n)[k].row == r && ColsUpTo(g, r, n)[k].col < n
  {
    if n > 0 {
      var init, here := ColsUpTo(g, r, n - 1), CellMoves(g, r, n - 1);
      ColsUpToOrdered(g, r, n - 1);
      CellMovesAt(g, r, n - 1);
      AppendInRow(init, here, r, n - 1);
      assert ColsUpTo(g, r, n) == init + here;
    }
  }

  lemma {:induction false} RowsUpToSpec(g: Grid, n: nat)
    requires WellFormed(g) && n <= NumRows
    ensures forall m :: m in RowsUpTo(g, n) <==> m.row < n && Legal(g, m)
    ensures Ordered(RowsUpTo(g, n))
  {
    if n > 0 {
      var init, here := RowsUpTo(g, n - 1), ColsUpTo(g, n - 1, NumCols);
      RowsUpToSpec(g, n - 1);
      ColsUpToMembers(g, n - 1, NumCols);
      ColsUpToOrdered(g, n - 1, NumCols);
      forall j, k | 0 <= j < |init| && 0 <= k < |here| ensures Before(init[j], here[k]) {
        assert init[j] in init;
      }
      OrderedAppend(init, here);
    }
  }

  /** The search tries exactly the legal moves of `g`, each once, in row,
      then column, then direction order. */
  lemma MovesSpec(g: Grid)
    requires WellFormed(g)
    ensures forall m :: m in Moves(g) <==> Legal(g, m)
    ensures Ordered(Moves(g))
    ensures forall k :: 0 <= k < |Moves(g)| ==> Legal(g, Moves(g)[k])
  {
    RowsUpToSpec(g, NumRows);
  }

  /** `h` is `g` after one legal move. */
  ghost predicate IsMove(g: Grid, h: Grid) {
    WellFormed(g) && exists m :: Legal(g, m) && h == Jump(g, m)
  }
}
