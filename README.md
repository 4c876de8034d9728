# Triangle peg solitaire: exhaustive search, modelled in Dafny

`tri_solitaire.c` searches every game of the 15-hole triangle peg-jump
puzzle. The triangle sits inside a 9 x 13 grid of C `int` cells. A jump
takes a peg over a neighbouring peg into the empty hole beyond it. It goes
in one of six directions: the four diagonals, and left or right by two
columns. Every cell off the triangle is `POS_INVALID`, a two-cell border
around it. The border alone does not keep a jump inside the grid, since a
sideways jump lands four columns away. The jump test reads the landing cell
only when the neighbour holds a peg (C's `&&`). With the border, that keeps
every cell the test reads inside the grid.

`generate_boards` is recursive and depth-first. It counts the pegs of a
board and records the board when one peg is left: the first such board is
kept as `winning_board`, and every one is counted in
`total_winning_boards`. It then tries every direction from every peg, in
row, column and direction order. Each legal jump becomes a freshly
allocated child board, which is linked into the parent's `next` list and
searched at once. `total_boards` counts every board, the starting board
included. `main` searches from the first starting board. When there is a
win, it sets `nextwin` links along the `prev` chain from the first winner
back to the start, then follows them forward.

The model has seven modules:

- `Wrappers` (cells.dfy): the `Option` datatype, used for the pointers
  that may be NULL and for a winning line that may not exist.
- `Cells` (cells.dfy): the cell flags as `bv32` bits and the grid. It
  covers `count_pegs` and `clear_last`, with a whole-grid specification
  for each.
- `Jumps` (jumps.dfy): the offset tables, the jump test of line 221, the
  board a jump produces, and the order in which the search tries jumps,
  as the sequence `Moves(g)`.
- `SearchTree` (tree.dfy): what the whole search below a board computes,
  as a pure function `Explore`. It gives the boards, the wins, the height,
  and the first winning line.
- `Arena` (arena.dfy): the boards kept in creation order in a sequence.
  Indices stand for the `next`, `prev` and `nextwin` pointers.
- `Generation` (generation.dfy): one call of `generate_boards` as a
  function on a value of the search state (the arena plus the four
  globals), and the inductive proofs about it.
- `Search` (search.dfy): the imperative model. The class `SearchContext`
  holds the arena and the globals as fields. `GenerateBoards` has the
  loop over the rows, `SearchRow` the loop over the columns and
  `SearchCell` the loop over the directions; the recursion goes through
  `Branch`, and the whole call is proved against the function
  `SearchBoard`. `ShowWinningLine` has the two walks of `main`.
  `Solve` is `main`. A child's squares are built in a fresh `array2`:
  they are copied, `ClearLast` runs on them in place, then the three
  cells are written.

## Model

| member | source | states |
|---|---|---|
| Cells.CountPegs | tri_solitaire.c:149-165 | the count returned is the number of cells of the grid whose `POS_FULL` bit is set (`PegCount`) |
| Cells.ClearLast | tri_solitaire.c:167-178 | after the call, every cell of the squares array is its old value with `POS_LAST` masked out, and nothing else changes |
| Cells.UnmarkedBits | tri_solitaire.c:175 | `v & ~POS_LAST` has no last-moved bit, and together with `v`'s own last-moved bit it gives back `v`: every other bit is kept |
| Cells.ClearedLastCells | tri_solitaire.c:173-177 | the whole-grid clear unmarks each cell and keeps the grid's shape |
| Cells.PegCountClearedLast | tri_solitaire.c:167-178 | clearing the mark neither adds nor removes a peg |
| Cells.ClearedLastTwice | tri_solitaire.c:167-178 | clearing the mark twice is the same as clearing it once |
| Cells.ClearedLastInvalid | tri_solitaire.c:167-178 | clearing the mark keeps every `POS_INVALID` cell, so a well-formed board stays well-formed |
| Cells.StartingBoard | tri_solitaire.c:254-305 | a starting board (a peg in every triangle hole but one) is well-formed; exactly its hole is `POS_EMPTY`, and exactly its other triangle cells hold pegs |
| Cells.InitialBoard1Shape | tri_solitaire.c:254-266 | `initial_board_1`, the board `main` searches, transcribed from its table, is the starting board with its hole at (4,6) |
| Cells.InitialBoard2Shape | tri_solitaire.c:267-279 | `initial_board_2` is the starting board with its hole at (2,6) |
| Cells.InitialBoard3Shape | tri_solitaire.c:280-292 | `initial_board_3` is the starting board with its hole at (3,5) |
| Cells.InitialBoard4Shape | tri_solitaire.c:293-305 | `initial_board_4` is the starting board with its hole at (4,4) |
| Jumps.OffsetBounds | tri_solitaire.c:93-94 | every direction moves at most one row and two columns, is not null, and has an even row+column sum, so a jump stays on the triangle's lattice |
| Jumps.LegalInBounds | tri_solitaire.c:214-221 | on a well-formed board, a jump the search makes starts, passes and lands on triangle holes inside the grid; the cell passed holds a peg and the landing cell is exactly `POS_EMPTY` |
| Jumps.JumpCells | tri_solitaire.c:225-229 | apart from the last-moved mark, which is cleared everywhere else, the child differs from its parent in exactly three cells: the mover and the jumped cell become `POS_EMPTY`, and the landing cell becomes `POS_FULL \| POS_LAST`; every other cell is the parent's with the mark cleared |
| Jumps.JumpPegCount | tri_solitaire.c:222-229 | each child has exactly one peg fewer than its parent |
| Jumps.JumpWellFormed | tri_solitaire.c:222-229 | a jump never changes a `POS_INVALID` cell, so the child is well-formed |
| Jumps.OffsetsUpToSpec | tri_solitaire.c:218-221 | the jumps tried from one cell, up to a given direction, are exactly the legal ones, in direction order |
| Jumps.ColsUpToOrdered | tri_solitaire.c:213-221 | the jumps tried in one row are in column, then direction order, and all lie in that row |
| Jumps.RowsUpToSpec | tri_solitaire.c:212-221 | the jumps tried in the first rows are exactly the legal jumps from those rows, in row, column and direction order |
| Jumps.MovesSpec | tri_solitaire.c:212-236 | a jump is tried if and only if it is legal; the jumps are tried once each, in strict row, column, direction order |
| SearchTree.AllLegalEach | tri_solitaire.c:212-236 | the back-to-front legality predicate holds exactly when every jump in the list is legal |
| SearchTree.ChildHasPeg | tri_solitaire.c:221-229 | a board that has a jump holds at least two pegs, and its child at least one |
| SearchTree.ExploreFacts | tri_solitaire.c:180-247 | below any board: a win is found if and only if a first winning line exists; that line starts at the board, makes one legal jump per step and ends with one peg, so it has as many boards as the board has pegs; and the search goes at least 1 and at most max(1, pegs) levels deep, which also bounds the recursion |
| SearchTree.ForestFacts | tri_solitaire.c:212-236 | the same facts for the children searched so far: no children means height 0; otherwise every line below is at most pegs-1 boards long |
| SearchTree.PrependMove | tri_solitaire.c:232-234 | putting a board in front of a winning line from one of its children gives a winning line |
| SearchTree.SolutionTail | tri_solitaire.c:232-234 | a winning line without its first board is a winning line from the child it moves to |
| SearchTree.ForestWinsAtLeast | tri_solitaire.c:209-234 | the searches of a board's children together count at least the wins below any one child |
| SearchTree.ExploreComplete | tri_solitaire.c:180-247 | the search is complete: when any line of legal jumps from a board ends with one peg, the search below that board counts a win and records a first winning line; so no win means no solution exists |
| Arena.AddedChildValid | tri_solitaire.c:222-233 | making a new board the next child of `b`, with `prev` set to `b`, keeps the arena one tree |
| Arena.AddedChild | tri_solitaire.c:231-232 | the new board comes last, with `prev` = `b` and no `nextwin`; `b`'s `next` list gains it at its end; every other board is unchanged |
| Arena.LineIsAncestry | tri_solitaire.c:330-340 | the line from the starting board to `w` is the squares along `w`'s prev chain, taken from the top |
| Arena.AncestryIncreasing | tri_solitaire.c:332-335 | the prev chain runs in creation order, so the backward walk ends |
| Arena.AncestryFacts | tri_solitaire.c:332-335 | the chain starts at a board without `prev`, and each board on it is the `prev` of the next |
| Arena.LineUp | tri_solitaire.c:232 | a line below a child extends to the parent by putting the parent in front |
| Arena.LinkedAncestry | tri_solitaire.c:332-335 | setting the links along `w`'s chain changes only `nextwin` links, and the links then run exactly along the chain |
| Arena.WinningLineFacts | tri_solitaire.c:330-340 | in a searched arena, the chain of a winner starts at the starting board and holds the winner only at its end; linking changes only links; the boards along it are the recorded line |
| Generation.SearchBoardArena | tri_solitaire.c:180-247 | one `generate_boards` call keeps the arena one tree without `nextwin` links; each legal jump of `b` becomes a child of `b`, stored in order in `next`; `total_boards` grows by the number of boards below `b` other than `b` itself, one per child created |
| Generation.SearchBoardWins | tri_solitaire.c:205-210 | the call adds to `total_winning_boards` exactly the wins below `b`, `b` included |
| Generation.SearchBoardDepth | tri_solitaire.c:200-240 | the call leaves `depth` as it found it, and `depth` never passes a bound that leaves one level for `b` and one for each of its pegs |
| Generation.SearchBoardWinner | tri_solitaire.c:205-208 | a winner already recorded is kept; otherwise one is recorded exactly when there is a win below `b`, and its prev chain up to `b` is the first winning line below `b` |
| Generation.SearchChildStep | tri_solitaire.c:222-234 | a child is stored last and has one peg fewer than its parent, and then it is searched |
| Generation.AddChildStateValid | tri_solitaire.c:222-233 | creating and counting a child keeps the search state valid |
| Generation.SearchFacts | tri_solitaire.c:326 | from the initial globals, the search counts every board and every win, returns to depth 0, goes between 1 and max(1, pegs) levels deep, and records a winner exactly when there is a win; the winner's chain from the starting board is the first winning line |
| Search.SearchContext.constructor | tri_solitaire.c:96-99 | the starting board alone, with `total_boards` = 1, no wins, depth 0 and no winner |
| Search.SearchContext.GenerateBoards | tri_solitaire.c:180-247 | the new state of the arena and the globals is `SearchBoard` of the old one; the result is TRUE exactly when `b` has a legal jump, that is, when a child was created |
| Search.SearchContext.EnterBoard | tri_solitaire.c:188-210 | count the pegs, go one level deeper, count a win, and keep the first winner |
| Search.SearchContext.SearchRow | tri_solitaire.c:213-237 | after a row, exactly the legal jumps of the rows so far have been searched, and the count of children made grows by that row's jumps |
| Search.SearchContext.SearchCell | tri_solitaire.c:218-236 | after the six directions from a peg, exactly its legal jumps have been searched, in direction order |
| Search.SearchContext.TryCell | tri_solitaire.c:214-216 | a cell without a peg is skipped |
| Search.SearchContext.TryJump | tri_solitaire.c:219-235 | a direction whose test of line 221 holds makes exactly one child |
| Search.SearchContext.Branch | tri_solitaire.c:222-234 | a legal jump creates a child, which is searched before the next direction |
| Search.SearchContext.AddChild | tri_solitaire.c:223-233 | the child is the next board of the arena, with the parent's squares after the jump, and `total_boards` grows by one |
| Search.SearchContext.LinkWinningLine | tri_solitaire.c:331-335 | the backward walk sets `nextwin` along the winner's prev chain and ends at the chain's board without `prev`; no other field changes |
| Search.SearchContext.FollowWinningLine | tri_solitaire.c:336-339 | the forward walk over `nextwin` links visits the prev chain in reverse, that is, from the start down to the winner |
| Search.SearchContext.ShowWinningLine | tri_solitaire.c:330-340 | without a win, nothing is linked or listed; with one, exactly the winner's chain is linked, and the boards listed are the line from the starting board to the first winner |
| Search.Solve | tri_solitaire.c:249-341 | `total_boards` and `total_winning_boards` are the board and win counts of the whole search; a line is listed exactly when there is a win; the listed line is the first win found, starts at the starting board, makes one legal jump per step, ends with one peg and has as many boards as the start has pegs; the depth stays within 1 and max(1, pegs); and when any solving line from the start exists, a win is counted and a line is listed, so an empty result means the start cannot be solved |
| Search.MakeMove | tri_solitaire.c:223-229 | copying the squares, clearing the mark in place and writing the three cells gives exactly `Jump(g, m)` |
| Search.WriteCell | tri_solitaire.c:227-229 | one in-place write changes exactly one cell |
| Search.CopySquares | tri_solitaire.c:225 | the fresh array holds a copy of the squares |

## Left out

- Printing is left out: `print_board`, `usage`, the ANSI screen control,
  `sleep`, the `-d`/`-v` options parsed by `getopt`, and the debug output.
  `main`'s output is returned instead. The board count and the winning
  line become results of `Solve`.
- `boardnum` and `prevnum` exist only for the debug output. They are left out.
- `calloc` and `memcpy` are modelled by values. Boards live in a sequence
  indexed in creation order, and pointers become indices, so aliasing
  and the fact that memory is never freed are not modelled. The
  `next[]`, `prev` and `nextwin` links are those indices.
- Search.SearchContext.AddChild: nothing proves that a board has at most
  `MAX_BOARDS` (14) children. The `next` list is an unbounded sequence.
  The bound does hold on the 15-hole triangle, by a counting argument
  that is not proved here. A jump uses one of the 18 three-hole lines,
  with its middle hole full and exactly one end empty. On each side, the
  three edge lines cannot all allow a jump at once, and neither can all
  nine inner lines. That leaves at most 6 + 8 = 14, so the unchecked
  write at line 231 stays inside the array.
- Search.SearchContext.GenerateBoards: `total_boards`,
  `total_winning_boards` and `depth` are unbounded integers. C `int`
  overflow is not modelled.
- The concrete totals for the four starting boards are not computed.
- Search.Solve: `main` only searches `initial_board_1`. `Solve` takes any
  well-formed starting board, so it covers `Cells.InitialBoard1` and the
  three other tables too.
- The `maxDepth` ghost field records the deepest `depth` reached. The
  source has no such variable.
- The header comment (lines 47-48) gives wrong cells for the two sideways
  jumps. The model follows the code at lines 93-94 and 221, where a
  sideways jump passes the cell two columns away and lands four away.
