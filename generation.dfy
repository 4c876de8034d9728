// What one call of generate_boards does to the search state, as functions
// on values, and what that means in terms of the summaries of SearchTree.

module Generation {
  import opened Wrappers
  import opened Cells
  import opened Jumps
  import opened SearchTree
  import opened Arena

  /** The line to the first win below `g`, with `g` in front. */
  function Prefixed(g: Grid, line: Option<seq<Grid>>): (r: Option<seq<Grid>>)
    ensures r.Some? <==> line.Some?
    ensures r.Some? ==> r.value == [g] + line.value
  {
    if line.Some? then Some([g] + line.value) else None
  }

  /** `nb` keeps every board of `ob`'s squares and parent, and every child
      list except that of `b`. */
  ghost predicate Framed(ob: seq<Board>, nb: seq<Board>, b: nat) {
    b < |ob| && Extends(ob, nb) &&
    forall k :: 0 <= k < |ob| && k != b ==> nb[k].next == ob[k].next
  }

  lemma FramedChild(ob: seq<Board>, nb0: seq<Board>, nb2: seq<Board>, b: nat, h: Grid)
    requires Framed(ob, nb0, b) && Framed(AddedChild(nb0, b, h), nb2, |nb0|)
    ensures Framed(ob, nb2, b)
  {
  }

  /** From position `k` on, the child list `next` names one board of `nb`
      per move of `done`, in order, holding the squares that move produces
      from `g`; those boards were created one after the other, so their
      indices increase. */
  ghost predicate Listed(nb: seq<Board>, next: seq<nat>, k: nat, g: Grid, done: seq<Move>)
    requires WellFormed(g)
  {
    |next| == k + |done| &&
    (forall j :: 0 <= j < |done| ==>
      Legal(g, done[j]) && next[k + j] < |nb| && nb[next[k + j]].squares == Jump(g, done[j])) &&
    forall j :: k <= j < |next| - 1 ==> next[j] < next[j + 1]
  }

  /** Listing the board `|nb0|`, made by move `m`, after those of `done`. */
  lemma ListedChild(nb0: seq<Board>, nb2: seq<Board>, next: seq<nat>, k: nat, g: Grid, done: seq<Move>, m: Move)
    requires WellFormed(g) && Legal(g, m) && Listed(nb0, next, k, g, done)
    requires Extends(nb0, nb2) && |nb0| < |nb2| && nb2[|nb0|].squares == Jump(g, m)
    ensures Listed(nb2, next + [|nb0|], k, g, done + [m])
  {
    var ms, next2 := done + [m], next + [|nb0|];
    forall j | 0 <= j < |ms|
      ensures Legal(g, ms[j]) && next2[k + j] < |nb2| && nb2[next2[k + j]].squares == Jump(g, ms[j])
    {
      if j < |done| {
        assert ms[j] == done[j] && next2[k + j] == next[k + j];
      }
    }
    forall j | k <= j < |next2| - 1 ensures next2[j] < next2[j + 1] {
      if j == |next| - 1 {
        var i := |done| - 1;
        assert Legal(g, done[i]) && next[k + i] < |nb0|;
      }
    }
  }

  /** The children `b` has in `nb` are those it had in `ob` followed by one
      child per move of `done`, in order, holding the squares that move
      produces from `g`. */
  ghost predicate ChildrenFor(ob: seq<Board>, nb: seq<Board>, b: nat, g: Grid, done: seq<Move>) {
    WellFormed(g) && AllLegal(g, done) && b < |ob| && b < |nb| &&
    Listed(nb, nb[b].next, |ob[b].next|, g, done) && nb[b].next[..|ob[b].next|] == ob[b].next
  }

  lemma ChildrenForChild(ob: seq<Board>, nb0: seq<Board>, nb2: seq<Board>, b: nat, g: Grid, done: seq<Move>, m: Move)
    requires ChildrenFor(ob, nb0, b, g, done) && Legal(g, m)
    requires Framed(AddedChild(nb0, b, Jump(g, m)), nb2, |nb0|)
    ensures ChildrenFor(ob, nb2, b, g, done + [m])
  {
    var n := |ob[b].next|;
    var nb1 := AddedChild(nb0, b, Jump(g, m));
    assert nb2[b].next == nb0[b].next + [|nb0|];
    assert nb2[b].next[..n] == nb0[b].next[..n];
    assert nb2[|nb0|].squares == nb1[|nb0|].squares;
    ListedChild(nb0, nb2, nb0[b].next, n, g, done, m);
    AllLegalAppend(g, done, m);
  }

  /** The arena `nb` is `ob` after the moves `done` of board `b`, whose
      squares are `g`, were each made into a new child of `b` and searched:
      no board of `ob` lost its squares or parent, only `b` got new
      children, one per move and in order, and the arena grew by the boards
      the searches below those moves create. */
  ghost predicate Explored(ob: seq<Board>, nb: seq<Board>, b: nat, g: Grid, done: seq<Move>) {
    ArenaValid(nb) && Framed(ob, nb, b) && ChildrenFor(ob, nb, b, g, done) &&
    nb[b].squares == g && |nb| == |ob| + ExploreForest(g, done).boards
  }

  lemma ExploredNothing(boards: seq<Board>, b: nat)
    requires ArenaValid(boards) && b < |boards|
    ensures Explored(boards, boards, b, boards[b].squares, [])
  {
    assert boards[b].next[..|boards[b].next|] == boards[b].next;
  }

  /** Making one more move `m` of `b` into a child and searching below it
      extends what the earlier moves explored. */
  lemma ExploredChild(ob: seq<Board>, nb0: seq<Board>, nb2: seq<Board>, b: nat, g: Grid, done: seq<Move>, m: Move)
    requires WellFormed(g) && Legal(g, m) && Explored(ob, nb0, b, g, done)
    requires WellFormed(Jump(g, m))
    requires Explored(AddedChild(nb0, b, Jump(g, m)), nb2, |nb0|, Jump(g, m), Moves(Jump(g, m)))
    ensures Explored(ob, nb2, b, g, done + [m])
  {
    var h := Jump(g, m);
    FramedChild(ob, nb0, nb2, b, h);
    ChildrenForChild(ob, nb0, nb2, b, g, done, m);
    AllLegalAppend(g, done, m);
    ForestStep(g, done, m);
    assert Explore(h).boards == 1 + ExploreForest(h, Moves(h)).boards;
  }

  /** The first win recorded below board `top` of `nb`: a winner already
      recorded (`w0`) stays; otherwise one is recorded exactly when the
      search found a line `first`, and the prev chain from the winner back
      up to `top` is that line. */
  ghost predicate Recorded(nb: seq<Board>, top: nat, w0: Option<nat>, w: Option<nat>, first: Option<seq<Grid>>) {
    ParentsBefore(nb) &&
    (w0.Some? ==> w == w0) &&
    (w0 == None ==>
      (w.Some? <==> first.Some?) &&
      (w.Some? ==> w.value < |nb| && Line(nb, top, w.value) == first))
  }

  /** After a child `c` of `b` is searched, the winner recorded below `b`
      covers the child's line too. */
  lemma RecordedChild(nb0: seq<Board>, nb1: seq<Board>, nb2: seq<Board>, b: nat, c: nat, w1: Option<nat>,
                      wb: Option<nat>, wa: Option<nat>, before: Option<seq<Grid>>, child: Option<seq<Grid>>)
    requires ParentsBefore(nb0) && Extends(nb0, nb1) && Extends(nb1, nb2) && b < |nb0| && c < |nb1|
    requires nb1[c].prev == Some(b)
    requires Recorded(nb0, b, w1, wb, Prefixed(nb0[b].squares, before))
    requires Recorded(nb2, c, wb, wa, child)
    ensures Recorded(nb2, b, w1, wa,
                     Prefixed(nb0[b].squares, if before.Some? then before else child))
  {
    if w1 == None {
      if before.Some? {
        LineExtends(nb0, nb2, b, wb.value);
      } else if wa.Some? {
        LineUp(nb2, b, c, wa.value);
      }
    }
  }

  /** The state of the search: the arena and the counters that the source
      keeps in global variables (total_boards, total_winning_boards, depth
      and winning_board), with the largest depth reached so far. */
  datatype State = State(boards: seq<Board>, totalBoards: nat, wins: nat, depth: int,
                         winner: Option<nat>, maxDepth: int)

  /** The state before the search: the starting board alone, already
      counted as a board. */
  function Initial(g: Grid): State {
    State([Board(g, [], None, None)], 1, 0, 0, None, 0)
  }

  /** The arena is one tree, every board is counted, and no board has a
      nextwin link yet. */
  ghost predicate StateValid(st: State) {
    ArenaValid(st.boards) && st.totalBoards == |st.boards| &&
    forall k :: 0 <= k < |st.boards| ==> st.boards[k].nextwin == None
  }

  /** Entering board `b`: one level deeper, and a board with a single peg
      is counted as a win and becomes the winner unless one is already
      recorded. */
  function Enter(st: State, b: nat): State
    requires b < |st.boards| && WellFormed(st.boards[b].squares)
  {
    var win := IsWin(st.boards[b].squares);
    st.(depth := st.depth + 1, maxDepth := Max(st.maxDepth, st.depth + 1),
        wins := st.wins + (if win then 1 else 0),
        winner := if win && st.winner == None then Some(b) else st.winner)
  }

  /** Making move `m` of board `b` into a new child of `b`, and counting it. */
  function AddChildState(st: State, b: nat, m: Move): State
    requires b < |st.boards| && WellFormed(st.boards[b].squares) && Legal(st.boards[b].squares, m)
  {
    st.(boards := AddedChild(st.boards, b, Jump(st.boards[b].squares, m)),
        totalBoards := st.totalBoards + 1)
  }

  /** One call of generate_boards on board `b`: enter `b`, make each of its
      moves in turn into a child and search below it, and leave `b`. */
  function SearchBoard(st: State, b: nat): (r: State)
    requires b < |st.boards| && WellFormed(st.boards[b].squares)
    ensures Extends(st.boards, r.boards)
    decreases PegCount(st.boards[b].squares), 1, 0
  {
    var g := st.boards[b].squares;
    MovesLegal(g);
    Leave(SearchMoves(Enter(st, b), b, Moves(g)))
  }

  /** Leaving a board: one level up. */
  function Leave(st: State): State {
    st.(depth := st.depth - 1)
  }

  /** The moves `ms` of board `b` made into children, each searched before
      the next is made. */
  function SearchMoves(st: State, b: nat, ms: seq<Move>): (r: State)
    requires b < |st.boards| && WellFormed(st.boards[b].squares)
    requires AllLegal(st.boards[b].squares, ms)
    ensures Extends(st.boards, r.boards)
    decreases PegCount(st.boards[b].squares), 0, |ms|
  {
    if ms == [] then st
    else SearchChild(SearchMoves(st, b, ms[..|ms| - 1]), b, ms[|ms| - 1])
  }

  /** Move `m` of board `b` made into a new child, which is then searched. */
  function SearchChild(st: State, b: nat, m: Move): (r: State)
    requires b < |st.boards| && WellFormed(st.boards[b].squares) && Legal(st.boards[b].squares, m)
    ensures Extends(st.boards, r.boards)
    decreases PegCount(st.boards[b].squares), 0, 0
  {
    JumpPegCount(st.boards[b].squares, m);
    JumpWellFormed(st.boards[b].squares, m);
    SearchBoard(AddChildState(st, b, m), |st.boards|)
  }

  /** SearchMoves one move further. */
  lemma SearchMovesStep(st: State, b: nat, ms: seq<Move>, m: Move)
    requires b < |st.boards| && WellFormed(st.boards[b].squares)
    requires AllLegal(st.boards[b].squares, ms) && Legal(st.boards[b].squares, m)
    ensures AllLegal(st.boards[b].squares, ms + [m])
    ensures SearchMoves(st, b, ms + [m]) == SearchChild(SearchMoves(st, b, ms), b, m)
  {
    AllLegalAppend(st.boards[b].squares, ms, m);
    assert (ms + [m])[..|ms|] == ms;
  }

  /** SearchBoard one call deep. */
  lemma SearchBoardStep(st: State, b: nat)
    requires b < |st.boards| && WellFormed(st.boards[b].squares)
    ensures AllLegal(st.boards[b].squares, Moves(st.boards[b].squares))
    ensures SearchBoard(st, b) == Leave(SearchMoves(Enter(st, b), b, Moves(st.boards[b].squares)))
  {
    MovesLegal(st.boards[b].squares);
  }

  /** The child made by move `m` of board `b` is the last board, has one
      peg fewer than `b`, and is searched next. */
  lemma SearchChildStep(st: State, b: nat, m: Move)
    requires b < |st.boards| && WellFormed(st.boards[b].squares) && Legal(st.boards[b].squares, m)
    ensures var s1 := AddChildState(st, b, m);
      |st.boards| < |s1.boards| && s1.boards[|st.boards|].squares == Jump(st.boards[b].squares, m) &&
      WellFormed(s1.boards[|st.boards|].squares) &&
      PegCount(s1.boards[|st.boards|].squares) == PegCount(st.boards[b].squares) - 1
    ensures SearchChild(st, b, m) == SearchBoard(AddChildState(st, b, m), |st.boards|)
  {
    JumpPegCount(st.boards[b].squares, m);
    JumpWellFormed(st.boards[b].squares, m);
  }

  /** Adding a child keeps the state valid. */
  lemma AddChildStateValid(st: State, b: nat, m: Move)
    requires StateValid(st) && b < |st.boards| && WellFormed(st.boards[b].squares)
    requires Legal(st.boards[b].squares, m)
    ensures StateValid(AddChildState(st, b, m))
  {
    var g := st.boards[b].squares;
    JumpWellFormed(g, m);
    AddedChildValid(st.boards, b, Jump(g, m));
  }

  /** Searching board `b` keeps the arena one tree in which no board has a
      nextwin link; `b` gets one child per move of its squares `g`, in
      order, and the arena grows by exactly the boards below `b`, all of
      them counted. */
  lemma {:induction false} SearchBoardArena(st: State, b: nat)
    requires StateValid(st) && b < |st.boards|
    ensures var g := st.boards[b].squares; var r := SearchBoard(st, b);
      StateValid(r) && Explored(st.boards, r.boards, b, g, Moves(g)) &&
      r.totalBoards == st.totalBoards + Explore(g).boards - 1
    decreases PegCount(st.boards[b].squares), 1, 0
  {
    SearchBoardStep(st, b);
    ExploreParts(st.boards[b].squares);
    SearchMovesArena(Enter(st, b), b, Moves(st.boards[b].squares));
  }

  lemma {:induction false} SearchMovesArena(st: State, b: nat, ms: seq<Move>)
    requires StateValid(st) && b < |st.boards| && AllLegal(st.boards[b].squares, ms)
    ensures var g := st.boards[b].squares; var r := SearchMoves(st, b, ms);
      StateValid(r) && Explored(st.boards, r.boards, b, g, ms)
    decreases PegCount(st.boards[b].squares), 0, |ms|
  {
    var g := st.boards[b].squares;
    if ms == [] {
      ExploredNothing(st.boards, b);
    } else {
      var init, m := ms[..|ms| - 1], ms[|ms| - 1];
      assert ms == init + [m];
      assert AllLegal(g, init);
      SearchMovesArena(st, b, init);
      var s := SearchMoves(st, b, init);
      SearchChildStep(s, b, m);
      AddChildStateValid(s, b, m);
      SearchBoardArena(AddChildState(s, b, m), |s.boards|);
      SearchMovesStep(st, b, init, m);
      ExploredChild(st.boards, s.boards, SearchChild(s, b, m).boards, b, g, init, m);
    }
  }

  /** Searching board `b` counts every win below it. */
  lemma {:induction false} SearchBoardWins(st: State, b: nat)
    requires b < |st.boards| && WellFormed(st.boards[b].squares)
    ensures SearchBoard(st, b).wins == st.wins + Explore(st.boards[b].squares).wins
    decreases PegCount(st.boards[b].squares), 1, 0
  {
    ExploreParts(st.boards[b].squares);
    SearchMovesWins(Enter(st, b), b, Moves(st.boards[b].squares));
  }

  lemma {:induction false} SearchMovesWins(st: State, b: nat, ms: seq<Move>)
    requires b < |st.boards| && WellFormed(st.boards[b].squares) && AllLegal(st.boards[b].squares, ms)
    ensures SearchMoves(st, b, ms).wins == st.wins + ExploreForest(st.boards[b].squares, ms).wins
    decreases PegCount(st.boards[b].squares), 0, |ms|
  {
    var g := st.boards[b].squares;
    if ms != [] {
      var init, m := ms[..|ms| - 1], ms[|ms| - 1];
      assert AllLegal(g, init);
      SearchMovesWins(st, b, init);
      var s := SearchMoves(st, b, init);
      JumpPegCount(g, m);
      JumpWellFormed(g, m);
      SearchBoardWins(AddChildState(s, b, m), |s.boards|);
      ForestStep(g, init, m);
    }
  }

  /** Searching board `b` brings the depth back to where it was, and never
      takes it past a bound `top` that leaves room for one level per peg of
      `b` (and at least one level for `b` itself). */
  lemma {:induction false} SearchBoardDepth(st: State, b: nat, top: int)
    requires b < |st.boards| && WellFormed(st.boards[b].squares)
    requires st.maxDepth <= top && st.depth + 1 <= top && st.depth + PegCount(st.boards[b].squares) <= top
    ensures SearchBoard(st, b).depth == st.depth
    ensures Max(st.maxDepth, st.depth + 1) <= SearchBoard(st, b).maxDepth <= top
    decreases PegCount(st.boards[b].squares), 1, 0
  {
    var g, e := st.boards[b].squares, Enter(st, b);
    assert e.boards == st.boards;
    SearchBoardStep(st, b);
    SearchMovesDepth(e, b, Moves(g), top);
  }

  lemma {:induction false} SearchMovesDepth(st: State, b: nat, ms: seq<Move>, top: int)
    requires b < |st.boards| && WellFormed(st.boards[b].squares) && AllLegal(st.boards[b].squares, ms)
    requires st.maxDepth <= top && st.depth + PegCount(st.boards[b].squares) <= top + 1
    ensures SearchMoves(st, b, ms).depth == st.depth
    ensures st.maxDepth <= SearchMoves(st, b, ms).maxDepth <= top
    decreases PegCount(st.boards[b].squares), 0, |ms|
  {
    var g := st.boards[b].squares;
    if ms != [] {
      var init, m := ms[..|ms| - 1], ms[|ms| - 1];
      assert AllLegal(g, init);
      SearchMovesDepth(st, b, init, top);
      var s := SearchMoves(st, b, init);
      ChildHasPeg(g, m);
      SearchChildStep(s, b, m);
      SearchBoardDepth(AddChildState(s, b, m), |s.boards|, top);
    }
  }

  /** Searching board `b` keeps a winner already recorded; otherwise it
      records one exactly when there is a win below `b`, and the prev chain
      from that winner up to `b` is the first winning line below `b`. */
  lemma {:induction false} SearchBoardWinner(st: State, b: nat)
    requires StateValid(st) && b < |st.boards|
    ensures var r := SearchBoard(st, b);
      Recorded(r.boards, b, st.winner, r.winner, Explore(st.boards[b].squares).firstWin)
    decreases PegCount(st.boards[b].squares), 1, 0
  {
    var g := st.boards[b].squares;
    SearchBoardStep(st, b);
    ExploreParts(g);
    SearchMovesWinner(Enter(st, b), b, Moves(g));
    SearchBoardArena(st, b);
    var r := SearchBoard(st, b);
    if st.winner == None && IsWin(g) {
      assert Line(r.boards, b, b) == Some([g]);
    }
  }

  lemma {:induction false} SearchMovesWinner(st: State, b: nat, ms: seq<Move>)
    requires StateValid(st) && b < |st.boards| && AllLegal(st.boards[b].squares, ms)
    ensures var g := st.boards[b].squares; var r := SearchMoves(st, b, ms);
      Recorded(r.boards, b, st.winner, r.winner, Prefixed(g, ExploreForest(g, ms).firstWin))
    decreases PegCount(st.boards[b].squares), 0, |ms|
  {
    var g := st.boards[b].squares;
    if ms != [] {
      var init, m := ms[..|ms| - 1], ms[|ms| - 1];
      assert AllLegal(g, init);
      SearchMovesWinner(st, b, init);
      SearchMovesArena(st, b, init);
      var s := SearchMoves(st, b, init);
      SearchChildStep(s, b, m);
      AddChildStateValid(s, b, m);
      var s1, c := AddChildState(s, b, m), |s.boards|;
      SearchBoardWinner(s1, c);
      ForestStep(g, init, m);
      RecordedChild(s.boards, s1.boards, SearchChild(s, b, m).boards, b, c, st.winner, s.winner,
                    SearchChild(s, b, m).winner, ExploreForest(g, init).firstWin, Explore(Jump(g, m)).firstWin);
    }
  }

  /** The whole search from a starting board: it counts every board and
      every win below the starting board, ends at depth 0 after reaching a
      depth between 1 and the larger of 1 and the starting board's peg
      count, and records a winner
      exactly when there is a win, whose prev chain from the starting board
      is the first winning line found. */
  lemma SearchFacts(g: Grid)
    requires WellFormed(g)
    ensures var r := SearchBoard(Initial(g), 0); var e := Explore(g);
      StateValid(r) && r.totalBoards == e.boards && r.wins == e.wins &&
      r.depth == 0 && 1 <= r.maxDepth <= Max(1, PegCount(g)) &&
      (r.winner.Some? <==> e.wins > 0) &&
      (r.winner.Some? ==> r.winner.value < |r.boards| && Line(r.boards, 0, r.winner.value) == e.firstWin)
  {
    var st := Initial(g);
    assert ArenaValid(st.boards);
    SearchBoardArena(st, 0);
    SearchBoardWins(st, 0);
    SearchBoardDepth(st, 0, Max(1, PegCount(g)));
    SearchBoardWinner(st, 0);
    ExploreFacts(g);
  }
}
