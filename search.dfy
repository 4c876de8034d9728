// The search itself: the class holding the arena and the counters that
// the source keeps in global variables, the recursive depth-first
// generation of boards, and the reconstruction of the first winning line.

module Search {
  import opened Wrappers
  import opened Cells
  import opened Jumps
  import opened SearchTree
  import opened Arena
  import opened Generation

  /** The search state: the arena of boards and the counters that the
      source keeps in global variables. */
  class SearchContext {
    var boards: seq<Board>
    var totalBoards: nat
    var totalWinningBoards: nat
    var depth: int
    var winningBoard: Option<nat>
    /** The largest value `depth` has reached. */
    ghost var maxDepth: int

    /** The fields as a value of the search state. */
    ghost function Snapshot(): State
      reads this
    {
      State(boards, totalBoards, totalWinningBoards, depth, winningBoard, maxDepth)
    }

    /** Board `b`, whose squares are `g`, was entered in state `s0`, and
        since then exactly the jumps `tried` of `g`, all legal, have each
        been made into a child of `b` and searched. */
    ghost predicate Reached(s0: State, b: nat, g: Grid, tried: seq<Move>)
      reads this
    {
      b < |s0.boards| && s0.boards[b].squares == g && WellFormed(g) &&
      AllLegal(g, tried) && Snapshot() == SearchMoves(s0, b, tried)
    }

    /** The state before the search: the starting board alone, counted as
        the first board. */
    constructor (initial: Grid)
      ensures Snapshot() == Initial(initial)
    {
      boards := [Board(initial, [], None, None)];
      totalBoards := 1;
      totalWinningBoards := 0;
      depth := 0;
      winningBoard := None;
      maxDepth := 0;
    }

    /** generate_boards: counts the pegs of board `b` and records it if it
        is a win, then tries every direction from every peg in row, column
        and direction order; each legal jump becomes a new child of `b`,
        which is searched before the next direction is tried. Returns
        whether `b` has a child. The loop over the rows is here; the loops
        over the columns and the directions are SearchRow and SearchCell. */
    method GenerateBoards(b: nat) returns (created: bool)
      requires b < |boards| && WellFormed(boards[b].squares)
      modifies this
      ensures Snapshot() == SearchBoard(old(Snapshot()), b)
      ensures created <==> Moves(old(boards[b].squares)) != []
      decreases PegCount(boards[b].squares), 5
    {
      var g := EnterBoard(b);
      ghost var s0 := Snapshot();
      var newBoardNum := 0;
      var row := 0;
      while row < NumRows
        invariant 0 <= row <= NumRows
        invariant Reached(s0, b, g, RowsUpTo(g, row))
        invariant newBoardNum == |RowsUpTo(g, row)|
      {
        var made := SearchRow(b, g, row, s0);
        newBoardNum := newBoardNum + made;
        row := row + 1;
      }
      ghost var s1 := Snapshot();
      assert s1 == SearchMoves(s0, b, Moves(g));
      depth := depth - 1;
      assert Snapshot() == Leave(s1);
      SearchBoardStep(old(Snapshot()), b);
      created := newBoardNum != 0;
    }

    /** The start of generate_boards: one level deeper, and board `b`
        counted as a win (and kept as the winner if it is the first) when
        exactly one peg is left on it. */
    method EnterBoard(b: nat) returns (g: Grid)
      requires b < |boards| && WellFormed(boards[b].squares)
      modifies this
      ensures Snapshot() == Enter(old(Snapshot()), b)
      ensures g == old(boards[b].squares) && WellFormed(g)
    {
      g := boards[b].squares;
      var count := CountPegs(g);
      depth := depth + 1;
      maxDepth := Max(maxDepth, depth);
      if count == 1 {
        if winningBoard == None {
          winningBoard := Some(b);
        }
        totalWinningBoards := totalWinningBoards + 1;
      }
    }

    /** The loop over the columns of one row of board `b`, whose squares are
        `g`: the directions from each cell that holds a peg are tried in
        turn. Returns the number of children made. */
    method SearchRow(b: nat, g: Grid, row: nat, ghost s0: State) returns (made: nat)
      requires WellFormed(g) && row < NumRows && Reached(s0, b, g, RowsUpTo(g, row))
      modifies this
      ensures Reached(s0, b, g, RowsUpTo(g, row + 1))
      ensures |RowsUpTo(g, row)| + made == |RowsUpTo(g, row + 1)|
      decreases PegCount(g), 4
    {
      made := 0;
      var col := 0;
      FirstCol(g, row);
      while col < NumCols
        invariant 0 <= col <= NumCols
        invariant Reached(s0, b, g, TriedCols(g, row, col))
        invariant |RowsUpTo(g, row)| + made == |TriedCols(g, row, col)|
      {
        var n := TryCell(b, g, row, col, s0);
        made := made + n;
        col := col + 1;
      }
      NextRow(g, row);
    }

    /** One turn of the column loop: the directions from (row, col) are
        tried when that cell holds a peg. */
    method TryCell(b: nat, g: Grid, row: nat, col: nat, ghost s0: State) returns (made: nat)
      requires WellFormed(g) && row < NumRows && col < NumCols && Reached(s0, b, g, TriedCols(g, row, col))
      modifies this
      ensures Reached(s0, b, g, TriedCols(g, row, col + 1))
      ensures |TriedCols(g, row, col)| + made == |TriedCols(g, row, col + 1)|
      decreases PegCount(g), 3
    {
      NextCol(g, row, col);
      made := 0;
      if HasPeg(g[row][col]) {
        made := SearchCell(b, g, row, col, s0);
      }
    }

    /** The loop over the six directions from the peg at (row, col) of
        board `b`: each legal jump is made into a child of `b`, which is
        searched before the next direction is tried. Returns the number of
        children made. */
    method SearchCell(b: nat, g: Grid, row: nat, col: nat, ghost s0: State) returns (made: nat)
      requires WellFormed(g) && row < NumRows && col < NumCols && HasPeg(g[row][col])
      requires Reached(s0, b, g, TriedBefore(g, row, col, 0))
      modifies this
      ensures Reached(s0, b, g, TriedBefore(g, row, col, NumOffsets))
      ensures |TriedBefore(g, row, col, 0)| + made == |TriedBefore(g, row, col, NumOffsets)|
      decreases PegCount(g), 2
    {
      made := 0;
      var offnum := 0;
      while offnum < NumOffsets
        invariant 0 <= offnum <= NumOffsets
        invariant Reached(s0, b, g, TriedBefore(g, row, col, offnum))
        invariant |TriedBefore(g, row, col, 0)| + made == |TriedBefore(g, row, col, offnum)|
      {
        var n := TryJump(b, g, row, col, offnum, s0);
        made := made + n;
        offnum := offnum + 1;
      }
    }

    /** One turn of the direction loop: when the peg at (row, col) can jump
        in direction `offnum`, the child is made and searched. */
    method TryJump(b: nat, g: Grid, row: nat, col: nat, offnum: nat, ghost s0: State) returns (made: nat)
      requires WellFormed(g) && row < NumRows && col < NumCols && offnum < NumOffsets && HasPeg(g[row][col])
      requires Reached(s0, b, g, TriedBefore(g, row, col, offnum))
      modifies this
      ensures Reached(s0, b, g, TriedBefore(g, row, col, offnum + 1))
      ensures |TriedBefore(g, row, col, offnum)| + made == |TriedBefore(g, row, col, offnum + 1)|
      decreases PegCount(g), 1
    {
      NextOffset(g, row, col, offnum);
      made := 0;
      if CanJump(g, row, col, offnum) {
        Branch(b, g, Move(row, col, offnum), s0, TriedBefore(g, row, col, offnum));
        made := 1;
      }
    }

    /** The body of the direction loop for a legal jump `m` of board `b`:
        the new board is made a child of `b` and searched. `s0` is the state
        after `b` was entered and `done` the jumps of `b` already made. */
    method Branch(b: nat, g: Grid, m: Move, ghost s0: State, ghost done: seq<Move>)
      requires WellFormed(g) && Legal(g, m) && Reached(s0, b, g, done)
      modifies this
      ensures Reached(s0, b, g, done + [m])
      decreases PegCount(g), 0
    {
      ghost var s := Snapshot();
      SearchMovesStep(s0, b, done, m);
      assert boards[b].squares == s0.boards[b].squares;
      var child := AddChild(b, m);
      SearchChildStep(s, b, m);
      var _ := GenerateBoards(child);
    }

    /** The end of main: when a win was found, the nextwin links are set
        along the prev chain from the first winner back to the starting
        board, then followed forward from there; the boards met on the way,
        which the source prints, are returned in order. Only nextwin
        links change. */
    method ShowWinningLine() returns (line: seq<Grid>)
      requires StateValid(Snapshot()) && (winningBoard.Some? <==> totalWinningBoards > 0)
      requires winningBoard.Some? ==> winningBoard.value < |boards|
      modifies this
      ensures Snapshot() == old(Snapshot()).(boards := boards)
      ensures |boards| == |old(boards)|
      ensures forall k :: 0 <= k < |boards| ==> boards[k] == old(boards[k]).(nextwin := boards[k].nextwin)
      ensures old(winningBoard) == None ==> line == [] && boards == old(boards)
      ensures old(winningBoard).Some? ==>
        var ix := Ancestry(old(boards), old(winningBoard).value);
        LinkedAlong(boards, ix) && line == GridsOf(old(boards), ix) &&
        Some(line) == Line(old(boards), 0, old(winningBoard).value)
    {
      line := [];
      if totalWinningBoards > 0 {
        var w := winningBoard.value;
        ghost var ob := boards;
        ghost var ix := Ancestry(ob, w);
        WinningLineFacts(ob, w);
        var root := LinkWinningLine(w);
        line := FollowWinningLine(root, ix);
      }
    }

    /** The backward walk: from the winner `w` up the prev chain, each
        board's parent gets a nextwin link to it. Returns the board with
        no parent, where the chain ends. */
    method LinkWinningLine(w: nat) returns (root: nat)
      requires ParentsBefore(boards) && w < |boards|
      modifies this
      ensures Snapshot() == old(Snapshot()).(boards := boards)
      ensures boards == LinkedFrom(old(boards), Ancestry(old(boards), w), 0)
      ensures root == Ancestry(old(boards), w)[0] && boards[root].prev == None
    {
      ghost var ob := boards;
      ghost var ix := Ancestry(ob, w);
      AncestryFacts(ob, w);
      var bs := boards;
      var b := w;
      ghost var t := |ix| - 1;
      while bs[b].prev != None
        invariant 0 <= t < |ix| && b == ix[t]
        invariant bs == LinkedFrom(ob, ix, t)
        invariant t > 0 ==> ob[b].prev == Some(ix[t - 1])
        modifies {}
        decreases t
      {
        LinkedFromPrev(ob, ix, t, b);
        var p := bs[b].prev.value;
        assert t > 0 && p == ix[t - 1];
        bs := bs[p := bs[p].(nextwin := Some(b))];
        b := p;
        t := t - 1;
      }
      LinkedFromPrev(ob, ix, t, b);
      assert ob[b].prev == None;
      boards := bs;
      root := b;
    }

    /** The forward walk: from `root`, nextwin links are followed to the
        end, and the boards met are returned in order. */
    method FollowWinningLine(root: nat, ghost ix: seq<nat>) returns (line: seq<Grid>)
      requires LinkedAlong(boards, ix) && root == ix[0]
      requires forall s :: 0 <= s < |ix| - 1 ==> ix[s] != ix[|ix| - 1]
      ensures line == GridsOf(boards, ix)
    {
      line := [];
      var cur := Some(root);
      ghost var u := 0;
      while cur.Some?
        invariant 0 <= u <= |ix|
        invariant cur == if u < |ix| then Some(ix[u]) else None
        invariant |line| == u && forall s :: 0 <= s < u ==> line[s] == boards[ix[s]].squares
        decreases |ix| - u
      {
        if u == |ix| - 1 {
          assert ix[u] !in ix[..|ix| - 1];
        }
        line := line + [boards[cur.value].squares];
        cur := boards[cur.value].nextwin;
        u := u + 1;
      }
    }

    /** Allocates a board, counts it, gives it the squares of board `b`
        after move `m`, and links it as the next child of `b`. */
    method AddChild(b: nat, m: Move) returns (child: nat)
      requires b < |boards| && WellFormed(boards[b].squares) && Legal(boards[b].squares, m)
      modifies this
      ensures child == old(|boards|)
      ensures Snapshot() == AddChildState(old(Snapshot()), b, m)
    {
      totalBoards := totalBoards + 1;
      var squares := MakeMove(boards[b].squares, m);
      child := |boards|;
      boards := AddedChild(boards, b, squares);
    }
  }

  /** main: searches from the starting board `initial`, reports the number
      of boards, and when some board is a win, links and lists the line of
      play from `initial` to the first winner found. The boards the source
      prints are returned as `line`; `totalWins` and `maxDepth` are the
      final values of the counters it keeps. */
  method Solve(initial: Grid) returns (totalBoards: nat, totalWins: nat, line: seq<Grid>, ghost maxDepth: int)
    requires WellFormed(initial)
    ensures totalBoards == Explore(initial).boards && totalWins == Explore(initial).wins
    ensures totalWins > 0 <==> line != []
    ensures line != [] ==> Some(line) == Explore(initial).firstWin
    ensures line != [] ==> IsSolution(line) && line[0] == initial && |line| == PegCount(initial)
    ensures 1 <= maxDepth <= Max(1, PegCount(initial))
    ensures forall p :: IsSolution(p) && p[0] == initial ==> totalWins > 0 && line != []
  {
    var search := new SearchContext(initial);
    var _ := search.GenerateBoards(0);
    SearchFacts(initial);
    ExploreFacts(initial);
    totalBoards, totalWins, maxDepth := search.totalBoards, search.totalWinningBoards, search.maxDepth;
    line := search.ShowWinningLine();
    forall p | IsSolution(p) && p[0] == initial ensures totalWins > 0 {
      ExploreComplete(initial, p);
    }
  }

  /** A freshly allocated squares array holding a copy of `g`. */
  method CopySquares(g: Grid) returns (sq: array2<Cell>)
    requires IsGrid(g)
    ensures fresh(sq) && Shaped(sq) && Squares(sq) == g
  {
    sq := new Cell[NumRows, NumCols]((r, c) requires 0 <= r < NumRows && 0 <= c < NumCols => g[r][c]);
    SameGrid(Squares(sq), g);
  }

  /** One cell of the squares array written in place. */
  method WriteCell(sq: array2<Cell>, r: nat, c: nat, v: Cell)
    requires Shaped(sq) && r < NumRows && c < NumCols
    modifies sq
    ensures Squares(sq) == Set(old(Squares(sq)), r, c, v)
  {
    ghost var h0 := Squares(sq);
    sq[r, c] := v;
    WrittenCell(h0, Squares(sq), r, c, v);
  }

  /** The squares of a new board: a fresh copy of `g` with the last-moved
      mark cleared in place, then the three cells of the move written. */
  method MakeMove(g: Grid, m: Move) returns (h: Grid)
    requires WellFormed(g) && Legal(g, m)
    ensures h == Jump(g, m)
  {
    LegalInBounds(g, m);
    var sq := CopySquares(g);
    ClearLast(sq);
    var ar, ac := m.row + RowOffsets[m.offnum], m.col + ColOffsets[m.offnum];
    var lr, lc := m.row + 2 * RowOffsets[m.offnum], m.col + 2 * ColOffsets[m.offnum];
    ghost var h0 := Squares(sq);
    WriteCell(sq, m.row, m.col, PosEmpty);
    ghost var h1 := Squares(sq);
    WriteCell(sq, ar, ac, PosEmpty);
    ghost var h2 := Squares(sq);
    WriteCell(sq, lr, lc, PosFull | PosLast);
    h := Squares(sq);
    JumpByWrites(g, m, h0, h1, h2, h);
  }
}
