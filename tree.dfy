// What the exhaustive depth-first search computes, as functions of the
// starting board: how many boards it creates, how many of them are wins,
// how deep it goes, and the line of play to the first win it meets.

module SearchTree {
  import opened Wrappers
  import opened Cells
  import opened Jumps

  /** The outcome of searching below one board: the boards created (the
      board itself included), the winning boards among them, the number of
      boards on the longest line of play, and the line of play (a sequence
      of boards) from the board to the first winning board met. */
  datatype Summary = Summary(boards: nat, wins: nat, height: nat, firstWin: Option<seq<Grid>>)

  function Max(a: int, b: int): int {
    if a < b then b else a
  }

  /** A board with a single peg left solves the puzzle. */
  predicate IsWin(g: Grid) {
    PegCount(g) == 1
  }

  /** Every move of `ms` is legal on `g`; stated from the back, the way the
      moves are explored. */
  predicate AllLegal(g: Grid, ms: seq<Move>)
    requires WellFormed(g)
  {
    ms == [] || (AllLegal(g, ms[..|ms| - 1]) && Legal(g, ms[|ms| - 1]))
  }

  /** AllLegal says that each move is legal. */
  lemma {:induction false} AllLegalEach(g: Grid, ms: seq<Move>)
    requires WellFormed(g)
    ensures AllLegal(g, ms) <==> forall k :: 0 <= k < |ms| ==> Legal(g, ms[k])
  {
    if ms != [] {
      var init := ms[..|ms| - 1];
      AllLegalEach(g, init);
      assert forall k :: 0 <= k < |init| ==> init[k] == ms[k];
    }
  }

  /** The search below `g`: `g` is checked for a win before any move is
      tried, then every move of `g` is explored in order. */
  function Explore(g: Grid): Summary
    requires WellFormed(g)
    decreases PegCount(g), 1, 0
  {
    MovesLegal(g);
    var f := ExploreForest(g, Moves(g));
    var win := IsWin(g);
    Summary(1 + f.boards,
            (if win then 1 else 0) + f.wins,
            1 + f.height,
            if win then Some([g])
            else if f.firstWin.Some? then Some([g] + f.firstWin.value)
            else None)
  }

  /** The searches below the boards the moves `ms` of `g` produce, one after
      the other: counts add up, the height is the largest, and the first win
      is the one met first. */
  function ExploreForest(g: Grid, ms: seq<Move>): Summary
    requires WellFormed(g) && AllLegal(g, ms)
    decreases PegCount(g), 0, |ms|
  {
    if ms == [] then Summary(0, 0, 0, None)
    else
      var f := ExploreForest(g, ms[..|ms| - 1]);
      var m := ms[|ms| - 1];
      JumpPegCount(g, m);
      JumpWellFormed(g, m);
      var t := Explore(Jump(g, m));
      Summary(f.boards + t.boards, f.wins + t.wins, Max(f.height, t.height),
              if f.firstWin.Some? then f.firstWin else t.firstWin)
  }

  /** `p` is a line of play that solves the puzzle: consecutive boards are
      one legal move apart and the last board has a single peg. */
  ghost predicate IsSolution(p: seq<Grid>) {
    |p| >= 1 && WellFormed(p[0]) && IsWin(p[|p| - 1]) &&
    forall k :: 0 <= k < |p| - 1 ==> IsMove(p[k], p[k + 1])
  }

  /** The child of `g` by move `m` still holds a peg. */
  lemma ChildHasPeg(g: Grid, m: Move)
    requires WellFormed(g) && Legal(g, m)
    ensures PegCount(Jump(g, m)) >= 1 && PegCount(g) >= 2
  {
    JumpCells(g, m);
    LegalInBounds(g, m);
    CellConstants();
    PegCountPositive(Jump(g, m), Landing(m).0, Landing(m).1);
    JumpPegCount(g, m);
  }

  /** What the search below a board promises: a win is recorded exactly when
      some board below is a win, the recorded line starts at the board, ends
      at a single peg, makes one legal move per step and so has as many
      boards as the board has pegs; and no line is longer than that. */
  lemma {:induction false} ExploreFacts(g: Grid)
    requires WellFormed(g)
    ensures var s := Explore(g);
      (s.wins > 0 <==> s.firstWin.Some?) &&
      1 <= s.height <= Max(1, PegCount(g)) &&
      (s.firstWin.Some? ==>
        IsSolution(s.firstWin.value) && s.firstWin.value[0] == g &&
        |s.firstWin.value| == PegCount(g))
    decreases PegCount(g), 1, 0
  {
    MovesLegal(g);
    var ms := Moves(g);
    ForestFacts(g, ms);
    var f := ExploreForest(g, ms);
    if ms != [] {
      AllLegalEach(g, ms);
      ChildHasPeg(g, ms[0]);
    }
    if !IsWin(g) && f.firstWin.Some? {
      PrependMove(g, f.firstWin.value);
    }
  }

  /** A move in front of a solving line gives a solving line. */
  lemma PrependMove(g: Grid, p: seq<Grid>)
    requires IsSolution(p) && IsMove(g, p[0])
    ensures IsSolution([g] + p)
  {
    var q := [g] + p;
    forall k | 0 <= k < |q| - 1 ensures IsMove(q[k], q[k + 1]) {
      if k > 0 {
        assert q[k] == p[k - 1] && q[k + 1] == p[k];
      }
    }
  }

  lemma {:induction false} ForestFacts(g: Grid, ms: seq<Move>)
    requires WellFormed(g) && AllLegal(g, ms)
    ensures var s := ExploreForest(g, ms);
      (s.wins > 0 <==> s.firstWin.Some?) &&
      (ms == [] ==> s.height == 0) &&
      (ms != [] ==> 1 <= s.height <= PegCount(g) - 1) &&
      (s.firstWin.Some? ==>
        IsSolution(s.firstWin.value) && IsMove(g, s.firstWin.value[0]) &&
        |s.firstWin.value| == PegCount(g) - 1)
    decreases PegCount(g), 0, |ms|
  {
    if ms != [] {
      var init := ms[..|ms| - 1];
      var m := ms[|ms| - 1];
      ForestFacts(g, init);
      JumpPegCount(g, m);
      JumpWellFormed(g, m);
      ChildHasPeg(g, m);
      ExploreFacts(Jump(g, m));
    }
  }

  /** A solving line without its first board still solves the puzzle. */
  lemma SolutionTail(p: seq<Grid>)
    requires IsSolution(p) && |p| >= 2
    ensures IsSolution(p[1..])
  {
    assert IsMove(p[0], p[1]);
    var m :| Legal(p[0], m) && p[1] == Jump(p[0], m);
    JumpWellFormed(p[0], m);
    var q := p[1..];
    forall k | 0 <= k < |q| - 1 ensures IsMove(q[k], q[k + 1]) {
      assert q[k] == p[k + 1] && q[k + 1] == p[k + 2];
    }
  }

  /** The children searched together find at least the wins that the
      search below any one of them finds. */
  lemma {:induction false} ForestWinsAtLeast(g: Grid, ms: seq<Move>, k: nat)
    requires WellFormed(g) && AllLegal(g, ms) && k < |ms| && Legal(g, ms[k])
    ensures WellFormed(Jump(g, ms[k]))
    ensures ExploreForest(g, ms).wins >= Explore(Jump(g, ms[k])).wins
    decreases |ms|
  {
    JumpWellFormed(g, ms[k]);
    var init := ms[..|ms| - 1];
    if k < |init| {
      assert init[k] == ms[k];
      ForestWinsAtLeast(g, init, k);
    }
  }

  /** The search is complete: when some line of play solves the puzzle
      from `g`, the search below `g` finds a win, so a board from which
      the search finds none cannot be solved. */
  lemma {:induction false} ExploreComplete(g: Grid, p: seq<Grid>)
    requires IsSolution(p) && p[0] == g
    ensures Explore(g).wins > 0 && Explore(g).firstWin.Some?
    decreases |p|
  {
    ExploreFacts(g);
    ExploreParts(g);
    if |p| >= 2 {
      assert IsMove(p[0], p[1]);
      var m :| Legal(g, m) && p[1] == Jump(g, m);
      SolutionTail(p);
      ExploreComplete(p[1], p[1..]);
      MovesSpec(g);
      var ms := Moves(g);
      var k :| 0 <= k < |ms| && ms[k] == m;
      ForestWinsAtLeast(g, ms, k);
    }
  }

  lemma AllLegalAppend(g: Grid, ms: seq<Move>, m: Move)
    requires WellFormed(g) && AllLegal(g, ms) && Legal(g, m)
    ensures AllLegal(g, ms + [m])
  {
    assert (ms + [m])[..|ms|] == ms;
  }

  /** Exploring one more move after `ms` adds the search below its board. */
  lemma ForestStep(g: Grid, ms: seq<Move>, m: Move)
    requires WellFormed(g) && Legal(g, m) && AllLegal(g, ms) && AllLegal(g, ms + [m])
    requires WellFormed(Jump(g, m))
    ensures ExploreForest(g, ms + [m]).boards == ExploreForest(g, ms).boards + Explore(Jump(g, m)).boards
    ensures ExploreForest(g, ms + [m]).wins == ExploreForest(g, ms).wins + Explore(Jump(g, m)).wins
    ensures ExploreForest(g, ms + [m]).height == Max(ExploreForest(g, ms).height, Explore(Jump(g, m)).height)
    ensures ExploreForest(g, ms + [m]).firstWin ==
      if ExploreForest(g, ms).firstWin.Some? then ExploreForest(g, ms).firstWin else Explore(Jump(g, m)).firstWin
  {
    var ms' := ms + [m];
    assert ms'[..|ms'| - 1] == ms;
  }

  /** Every move that Moves lists is legal. */
  lemma MovesLegal(g: Grid)
    requires WellFormed(g)
    ensures AllLegal(g, Moves(g))
  {
    MovesSpec(g);
    AllLegalEach(g, Moves(g));
  }

  /** The parts of the summary of `g`: the board itself, then the moves. */
  lemma ExploreParts(g: Grid)
    requires WellFormed(g)
    ensures AllLegal(g, Moves(g))
    ensures Explore(g).boards == 1 + ExploreForest(g, Moves(g)).boards
    ensures Explore(g).wins == (if IsWin(g) then 1 else 0) + ExploreForest(g, Moves(g)).wins
    ensures Explore(g).height == 1 + ExploreForest(g, Moves(g)).height
    ensures Explore(g).firstWin ==
      if IsWin(g) then Some([g])
      else if ExploreForest(g, Moves(g)).firstWin.Some? then Some([g] + ExploreForest(g, Moves(g)).firstWin.value)
      else None
  {
    MovesLegal(g);
  }
}
