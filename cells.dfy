// The padded board of the triangle peg-jump puzzle: cell encoding, the grid,
// counting pegs and clearing the last-moved mark.

module Wrappers {
  datatype Option<+T> = None | Some(value: T)
}

module Cells {

  /** A cell holds a C `int`; the flags below are bits of it. */
  type Cell = bv32

  const NumRows: nat := 9
  const NumCols: nat := 13

  const PosEmpty: Cell := 0x00
  const PosFull: Cell := 0x01
  const PosInvalid: Cell := 0x02
  /** Display-only mark on the peg that moved last. */
  const PosLast: Cell := 0x10

  /** The squares of one board, row by row. */
  type Grid = seq<seq<Cell>>

  predicate IsGrid(g: Grid) {
    |g| == NumRows && forall r :: 0 <= r < |g| ==> |g[r]| == NumCols
  }

  predicate HasPeg(v: Cell) {
    v & PosFull != 0
  }

  /** The 15 holes of the triangle inside the 9 x 13 grid: rows 2..6, with
      row r holding the columns 8-r, 10-r, ..., r+4. */
  predicate OnTriangle(r: int, c: int) {
    2 <= r <= 6 && 8 - r <= c <= r + 4 && (r + c) % 2 == 0
  }

  /** Every cell off the triangle is invalid: a two-cell border around the
      figure. The border alone does not keep a jump inside the grid (a
      sideways jump lands four columns away); the jump test reads the
      landing cell only after the neighbour is seen to hold a peg, which
      is what keeps every read inside (see Jumps.CanJump). */
  predicate WellFormed(g: Grid) {
    IsGrid(g) &&
    forall r, c :: 0 <= r < NumRows && 0 <= c < NumCols && !OnTriangle(r, c) ==> g[r][c] == PosInvalid
  }

  lemma PegOnTriangle(g: Grid, r: int, c: int)
    requires WellFormed(g) && 0 <= r < NumRows && 0 <= c < NumCols
    requires HasPeg(g[r][c]) || g[r][c] == PosEmpty
    ensures OnTriangle(r, c) && 2 <= r <= 6 && 2 <= c <= 10
  {
  }

  /** A starting board: every triangle hole holds a peg except `hole`. */
  function StartingBoard(holeRow: int, holeCol: int): (g: Grid)
    requires OnTriangle(holeRow, holeCol)
    ensures WellFormed(g)
    ensures forall r, c :: 0 <= r < NumRows && 0 <= c < NumCols ==>
      (g[r][c] == PosEmpty <==> (r, c) == (holeRow, holeCol)) &&
      (HasPeg(g[r][c]) <==> OnTriangle(r, c) && (r, c) != (holeRow, holeCol))
  {
    seq(NumRows, r =>
      seq(NumCols, c =>
        if !OnTriangle(r, c) then PosInvalid
        else if (r, c) == (holeRow, holeCol) then PosEmpty
        else PosFull))
  }

  // The source's shorthand for the cells of its board tables: `O` an empty
  // hole, `X` a peg, and `I` (written `_` there) an invalid cell.
  const O: Cell := PosEmpty
  const X: Cell := PosFull
  const I: Cell := PosInvalid

  /** The four starting boards of main, as written in its tables. */
  const InitialBoard1: Grid := [
    [I, I, I, I, I, I, I, I, I, I, I, I, I],
    [I, I, I, I, I, I, I, I, I, I, I, I, I],
    [I, I, I, I, I, I, X, I, I, I, I, I, I],
    [I, I, I, I, I, X, I, X, I, I, I, I, I],
    [I, I, I, I, X, I, O, I, X, I, I, I, I],
    [I, I, I, X, I, X, I, X, I, X, I, I, I],
    [I, I, X, I, X, I, X, I, X, I, X, I, I],
    [I, I, I, I, I, I, I, I, I, I, I, I, I],
    [I, I, I, I, I, I, I, I, I, I, I, I, I]]

  const InitialBoard2: Grid := [
    [I, I, I, I, I, I, I, I, I, I, I, I, I],
    [I, I, I, I, I, I, I, I, I, I, I, I, I],
    [I, I, I, I, I, I, O, I, I, I, I, I, I],
    [I, I, I, I, I, X, I, X, I, I, I, I, I],
    [I, I, I, I, X, I, X, I, X, I, I, I, I],
    [I, I, I, X, I, X, I, X, I, X, I, I, I],
    [I, I, X, I, X, I, X, I, X, I, X, I, I],
    [I, I, I, I, I, I, I, I, I, I, I, I, I],
    [I, I, I, I, I, I, I, I, I, I, I, I, I]]

  const InitialBoard3: Grid := [
    [I, I, I, I, I, I, I, I, I, I, I, I, I],
    [I, I, I, I, I, I, I, I, I, I, I, I, I],
    [I, I, I, I, I, I, X, I, I, I, I, I, I],
    [I, I, I, I, I, O, I, X, I, I, I, I, I],
    [I, I, I, I, X, I, X, I, X, I, I, I, I],
    [I, I, I, X, I, X, I, X, I, X, I, I, I],
    [I, I, X, I, X, I, X, I, X, I, X, I, I],
    [I, I, I, I, I, I, I, I, I, I, I, I, I],
    [I, I, I, I, I, I, I, I, I, I, I, I, I]]

  const InitialBoard4: Grid := [
    [I, I, I, I, I, I, I, I, I, I, I, I, I],
    [I, I, I, I, I, I, I, I, I, I, I, I, I],
    [I, I, I, I, I, I, X, I, I, I, I, I, I],
    [I, I, I, I, I, X, I, X, I, I, I, I, I],
    [I, I, I, I, O, I, X, I, X, I, I, I, I],
    [I, I, I, X, I, X, I, X, I, X, I, I, I],
    [I, I, X, I, X, I, X, I, X, I, X, I, I],
    [I, I, I, I, I, I, I, I, I, I, I, I, I],
    [I, I, I, I, I, I, I, I, I, I, I, I, I]]

  /** The starting board main searches is the full triangle with the hole
      in the middle of its third row. */
  lemma InitialBoard1Shape()
    ensures InitialBoard1 == StartingBoard(4, 6)
  {
    SameRows(InitialBoard1, StartingBoard(4, 6));
  }

  /** The other starting boards have the hole at the apex ... */
  lemma InitialBoard2Shape()
    ensures InitialBoard2 == StartingBoard(2, 6)
  {
    SameRows(InitialBoard2, StartingBoard(2, 6));
  }

  /** ... on the left edge of the second row ... */
  lemma InitialBoard3Shape()
    ensures InitialBoard3 == StartingBoard(3, 5)
  {
    SameRows(InitialBoard3, StartingBoard(3, 5));
  }

  /** ... and on the left edge of the third row. */
  lemma InitialBoard4Shape()
    ensures InitialBoard4 == StartingBoard(4, 4)
  {
    SameRows(InitialBoard4, StartingBoard(4, 4));
  }

  /** Two grids whose rows agree one by one are the same grid. */
  lemma SameRows(g: Grid, h: Grid)
    requires |g| == |h| == NumRows
    requires g[0] == h[0] && g[1] == h[1] && g[2] == h[2] && g[3] == h[3] && g[4] == h[4]
    requires g[5] == h[5] && g[6] == h[6] && g[7] == h[7] && g[8] == h[8]
    ensures g == h
  {
  }

  lemma CellConstants()
    ensures HasPeg(PosFull) && HasPeg(PosFull | PosLast)
    ensures !HasPeg(PosEmpty) && !HasPeg(PosInvalid)
    ensures Unmarked(PosEmpty) == PosEmpty && Unmarked(PosInvalid) == PosInvalid
  {
  }

  // ---------------------------------------------------------------------
  // Counting pegs

  function Bit(v: Cell): nat {
    if HasPeg(v) then 1 else 0
  }

  /** Number of cells of `row` with the peg bit set. */
  function RowPegs(row: seq<Cell>): nat {
    if row == [] then 0 else RowPegs(row[..|row| - 1]) + Bit(row[|row| - 1])
  }

  /** Number of cells of `g` with the peg bit set. */
  function PegCount(g: Grid): nat {
    if g == [] then 0 else PegCount(g[..|g| - 1]) + RowPegs(g[|g| - 1])
  }

  /** count_pegs: visits every cell row by row and counts those with the
      peg bit set. */
  method CountPegs(g: Grid) returns (count: nat)
    requires IsGrid(g)
    ensures count == PegCount(g)
  {
    count := 0;
    var row := 0;
    while row < NumRows
      invariant 0 <= row <= NumRows
      invariant count == PegCount(g[..row])
    {
      var col := 0;
      while col < NumCols
        invariant 0 <= col <= NumCols
        invariant count == PegCount(g[..row]) + RowPegs(g[row][..col])
      {
        if HasPeg(g[row][col]) {
          count := count + 1;
        }
        assert g[row][..col + 1][..col] == g[row][..col];
        col := col + 1;
      }
      assert g[row][..col] == g[row];
      assert g[..row + 1][..row] == g[..row];
      row := row + 1;
    }
    assert g[..row] == g;
  }

  // ---------------------------------------------------------------------
  // Updating cells

  /** `g` with cell (r, c) replaced by `v`. */
  function Set(g: Grid, r: nat, c: nat, v: Cell): (h: Grid)
    requires r < |g| && c < |g[r]|
  {
    g[r := g[r][c := v]]
  }

  lemma SetCell(g: Grid, r: nat, c: nat, v: Cell, y: nat, x: nat)
    requires r < |g| && c < |g[r]| && y < |g| && x < |g[y]|
    ensures |Set(g, r, c, v)| == |g| && |Set(g, r, c, v)[y]| == |g[y]|
    ensures Set(g, r, c, v)[y][x] == if y == r && x == c then v else g[y][x]
  {
  }

  lemma {:induction false} RowPegsSet(row: seq<Cell>, c: nat, v: Cell)
    requires c < |row|
    ensures RowPegs(row[c := v]) + Bit(row[c]) == RowPegs(row) + Bit(v)
    decreases |row|
  {
    var n := |row| - 1;
    assert row[c := v][..n] == if c < n then row[..n][c := v] else row[..n];
    if c < n {
      RowPegsSet(row[..n], c, v);
    }
  }

  lemma {:induction false} PegCountSetRows(g: Grid, r: nat, c: nat, v: Cell)
    requires r < |g| && c < |g[r]|
    ensures PegCount(Set(g, r, c, v)) + Bit(g[r][c]) == PegCount(g) + Bit(v)
    decreases |g|
  {
    var n := |g| - 1;
    var h := Set(g, r, c, v);
    if r < n {
      assert h[..n] == Set(g[..n], r, c, v);
      PegCountSetRows(g[..n], r, c, v);
    } else {
      assert h[..n] == g[..n];
      RowPegsSet(g[r], c, v);
    }
  }

  /** Writing one cell changes the peg count by the change of that cell's
      peg bit. */
  lemma PegCountSet(g: Grid, r: nat, c: nat, v: Cell)
    requires r < |g| && c < |g[r]|
    ensures PegCount(Set(g, r, c, v)) == PegCount(g) - Bit(g[r][c]) + Bit(v)
  {
    PegCountSetRows(g, r, c, v);
  }

  lemma PegCountRemove(g: Grid, r: nat, c: nat)
    requires r < |g| && c < |g[r]| && HasPeg(g[r][c])
    ensures PegCount(Set(g, r, c, PosEmpty)) == PegCount(g) - 1
  {
    PegCountSet(g, r, c, PosEmpty);
    CellConstants();
  }

  /** A board with a peg somewhere has a positive peg count. */
  lemma PegCountPositive(g: Grid, r: nat, c: nat)
    requires r < |g| && c < |g[r]| && HasPeg(g[r][c])
    ensures PegCount(g) >= 1
  {
    PegCountRemove(g, r, c);
  }

  lemma PegCountAdd(g: Grid, r: nat, c: nat)
    requires r < |g| && c < |g[r]| && !HasPeg(g[r][c])
    ensures PegCount(Set(g, r, c, PosFull | PosLast)) == PegCount(g) + 1
  {
    PegCountSet(g, r, c, PosFull | PosLast);
    CellConstants();
  }

  // ---------------------------------------------------------------------
  // Clearing the last-moved mark

  /** The cell with the last-moved bit masked out. */
  function Unmarked(v: Cell): Cell {
    v & !PosLast
  }

  /** Unmarking takes the last-moved bit off and keeps every other bit. */
  lemma UnmarkedBits(v: Cell)
    ensures Unmarked(v) & PosLast == 0
    ensures Unmarked(v) | (v & PosLast) == v
  {
  }

  /** Unmarking an unmarked cell changes nothing. */
  lemma UnmarkedTwice(v: Cell)
    ensures Unmarked(Unmarked(v)) == Unmarked(v)
  {
  }

  /** In particular it keeps the peg bit and the invalid value. */
  lemma UnmarkedKeeps(v: Cell)
    ensures HasPeg(Unmarked(v)) == HasPeg(v)
    ensures v == PosInvalid ==> Unmarked(v) == PosInvalid
  {
  }

  /** Every cell of `row` unmarked. */
  function UnmarkedRow(row: seq<Cell>): (u: seq<Cell>)
    ensures |u| == |row|
  {
    if row == [] then [] else UnmarkedRow(row[..|row| - 1]) + [Unmarked(row[|row| - 1])]
  }

  /** Every cell of `g` unmarked. */
  function ClearedLast(g: Grid): (h: Grid)
    ensures |h| == |g|
  {
    if g == [] then [] else ClearedLast(g[..|g| - 1]) + [UnmarkedRow(g[|g| - 1])]
  }

  lemma {:induction false} UnmarkedRowCells(row: seq<Cell>)
    ensures forall c :: 0 <= c < |row| ==> UnmarkedRow(row)[c] == Unmarked(row[c])
    decreases |row|
  {
    if row != [] {
      UnmarkedRowCells(row[..|row| - 1]);
    }
  }

  lemma {:induction false} ClearedLastRows(g: Grid)
    ensures forall r :: 0 <= r < |g| ==> ClearedLast(g)[r] == UnmarkedRow(g[r])
    decreases |g|
  {
    if g != [] {
      ClearedLastRows(g[..|g| - 1]);
    }
  }

  /** Clearing the mark unmarks each cell and keeps the shape of the grid. */
  lemma ClearedLastCells(g: Grid)
    ensures forall r :: 0 <= r < |g| ==> |ClearedLast(g)[r]| == |g[r]|
    ensures forall r, c :: 0 <= r < |g| && 0 <= c < |g[r]| ==> ClearedLast(g)[r][c] == Unmarked(g[r][c])
  {
    ClearedLastRows(g);
    forall r | 0 <= r < |g|
      ensures forall c :: 0 <= c < |g[r]| ==> ClearedLast(g)[r][c] == Unmarked(g[r][c])
    {
      UnmarkedRowCells(g[r]);
    }
  }

  lemma {:induction false} RowPegsUnmarked(row: seq<Cell>)
    ensures RowPegs(UnmarkedRow(row)) == RowPegs(row)
    decreases |row|
  {
    if row != [] {
      var n := |row| - 1;
      assert UnmarkedRow(row)[..n] == UnmarkedRow(row[..n]);
      RowPegsUnmarked(row[..n]);
      UnmarkedKeeps(row[n]);
    }
  }

  /** Clearing the mark never adds or removes a peg. */
  lemma {:induction false} PegCountClearedLast(g: Grid)
    ensures PegCount(ClearedLast(g)) == PegCount(g)
    decreases |g|
  {
    if g != [] {
      var n := |g| - 1;
      assert ClearedLast(g)[..n] == ClearedLast(g[..n]);
      PegCountClearedLast(g[..n]);
      RowPegsUnmarked(g[n]);
    }
  }

  /** Clearing the mark is idempotent and keeps every invalid cell. */
  lemma {:induction false} UnmarkedRowTwice(row: seq<Cell>)
    ensures UnmarkedRow(UnmarkedRow(row)) == UnmarkedRow(row)
    decreases |row|
  {
    if row != [] {
      var n := |row| - 1;
      var u := UnmarkedRow(row);
      assert u[..n] == UnmarkedRow(row[..n]);
      UnmarkedRowTwice(row[..n]);
      UnmarkedTwice(row[n]);
    }
  }

  /** Clearing the mark twice is clearing it once. */
  lemma {:induction false} ClearedLastTwice(g: Grid)
    ensures ClearedLast(ClearedLast(g)) == ClearedLast(g)
    decreases |g|
  {
    if g != [] {
      var n := |g| - 1;
      var h := ClearedLast(g);
      assert h[..n] == ClearedLast(g[..n]);
      ClearedLastTwice(g[..n]);
      UnmarkedRowTwice(g[n]);
    }
  }

  /** Clearing the mark keeps every invalid cell, so a well-formed grid
      stays well-formed. */
  lemma ClearedLastInvalid(g: Grid)
    ensures forall r :: 0 <= r < |g| ==> |ClearedLast(g)[r]| == |g[r]|
    ensures forall r, c :: 0 <= r < |g| && 0 <= c < |g[r]| && g[r][c] == PosInvalid ==>
      ClearedLast(g)[r][c] == PosInvalid
    ensures WellFormed(g) ==> WellFormed(ClearedLast(g))
  {
    ClearedLastCells(g);
    UnmarkedKeeps(PosInvalid);
  }

  // ---------------------------------------------------------------------
  // The squares array of a board under construction

  /** Two grids with the same cells are the same grid. */
  lemma SameGrid(g: Grid, h: Grid)
    requires IsGrid(g) && IsGrid(h)
    requires forall r, c :: 0 <= r < NumRows && 0 <= c < NumCols ==> g[r][c] == h[r][c]
    ensures g == h
  {
    assert forall r | 0 <= r < NumRows :: g[r] == h[r];
  }

  /** A grid that differs from `g` only at (r, c), where it holds `v`, is
      `Set(g, r, c, v)`. */
  lemma WrittenCell(g: Grid, h: Grid, r: nat, c: nat, v: Cell)
    requires IsGrid(g) && IsGrid(h) && r < NumRows && c < NumCols
    requires forall y, x :: 0 <= y < NumRows && 0 <= x < NumCols ==>
      h[y][x] == if y == r && x == c then v else g[y][x]
    ensures h == Set(g, r, c, v)
  {
    forall y, x | 0 <= y < NumRows && 0 <= x < NumCols
      ensures Set(g, r, c, v)[y][x] == h[y][x]
    {
      SetCell(g, r, c, v, y, x);
    }
    SameGrid(h, Set(g, r, c, v));
  }

  predicate Shaped(sq: array2<Cell>) {
    sq.Length0 == NumRows && sq.Length1 == NumCols
  }

  /** The squares array read as a grid. */
  function Squares(sq: array2<Cell>): (g: Grid)
    reads sq
    requires Shaped(sq)
    ensures IsGrid(g)
    ensures forall r, c :: 0 <= r < NumRows && 0 <= c < NumCols ==> g[r][c] == sq[r, c]
  {
    seq(NumRows, r requires 0 <= r < NumRows reads sq =>
      seq(NumCols, c requires 0 <= c < NumCols reads sq => sq[r, c]))
  }

  /** clear_last: masks the last-moved bit out of every cell in place. */
  method ClearLast(sq: array2<Cell>)
    requires Shaped(sq)
    modifies sq
    ensures Squares(sq) == ClearedLast(old(Squares(sq)))
  {
    ghost var g := Squares(sq);
    var row := 0;
    while row < NumRows
      invariant 0 <= row <= NumRows
      invariant forall r, c :: 0 <= r < NumRows && 0 <= c < NumCols ==>
        sq[r, c] == if r < row then Unmarked(g[r][c]) else g[r][c]
    {
      var col := 0;
      while col < NumCols
        invariant 0 <= col <= NumCols
        invariant forall r, c :: 0 <= r < NumRows && 0 <= c < NumCols ==>
          sq[r, c] == if r < row || (r == row && c < col) then Unmarked(g[r][c]) else g[r][c]
      {
        sq[row, col] := Unmarked(sq[row, col]);
        col := col + 1;
      }
      row := row + 1;
    }
    ClearedLastCells(g);
    SameGrid(Squares(sq), ClearedLast(g));
  }
}
