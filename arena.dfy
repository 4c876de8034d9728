// The boards of the search kept in creation order in an arena, with
// parent and child indices standing for the C pointers, and the lines of
// play that parent links trace.

module Arena {
  import opened Wrappers
  import opened Cells
  import opened Jumps

  /** One board of the search (struct board): its squares, the boards
      created from it in creation order (next), the board it was created
      from (prev, None for the starting board) and the next board on the
      winning line (nextwin), which only the reconstruction sets. */
  datatype Board = Board(squares: Grid, next: seq<nat>, prev: Option<nat>, nextwin: Option<nat>)

  /** Every board is created after the board it comes from. */
  ghost predicate ParentsBefore(boards: seq<Board>) {
    forall k :: 0 <= k < |boards| && boards[k].prev.Some? ==> boards[k].prev.value < k
  }

  /** The arena holds one tree: board 0 is the starting board and the only
      one without a parent, every board keeps the triangle layout, and each
      board's children point back to it. */
  ghost predicate ArenaValid(boards: seq<Board>) {
    |boards| >= 1 && boards[0].prev == None && ParentsBefore(boards) &&
    (forall k :: 0 < k < |boards| ==> boards[k].prev.Some?) &&
    (forall k :: 0 <= k < |boards| ==> WellFormed(boards[k].squares)) &&
    (forall k, j :: 0 <= k < |boards| && 0 <= j < |boards[k].next| ==>
      boards[k].next[j] < |boards| && boards[boards[k].next[j]].prev == Some(k))
  }

  /** `nb` keeps every board of `ob` except, at most, their child lists. */
  ghost predicate Extends(ob: seq<Board>, nb: seq<Board>) {
    |ob| <= |nb| &&
    forall k :: 0 <= k < |ob| ==>
      nb[k].squares == ob[k].squares && nb[k].prev == ob[k].prev && nb[k].nextwin == ob[k].nextwin
  }

  /** The boards on the prev chain from `top` down to `w`, if `top` is on the
      chain of `w`. */
  ghost function Line(boards: seq<Board>, top: nat, w: nat): Option<seq<Grid>>
    requires ParentsBefore(boards) && w < |boards|
    decreases w
  {
    if w == top then Some([boards[w].squares])
    else match boards[w].prev
      case None => None
      case Some(p) =>
        match Line(boards, top, p)
        case None => None
        case Some(l) => Some(l + [boards[w].squares])
  }

  lemma {:induction false} LineExtends(ob: seq<Board>, nb: seq<Board>, top: nat, w: nat)
    requires ParentsBefore(ob) && ParentsBefore(nb) && Extends(ob, nb) && w < |ob|
    ensures Line(nb, top, w) == Line(ob, top, w)
    decreases w
  {
    if w != top && ob[w].prev.Some? {
      LineExtends(ob, nb, top, ob[w].prev.value);
    }
  }

  lemma {:induction false} LineBelow(boards: seq<Board>, top: nat, w: nat)
    requires ParentsBefore(boards) && w < |boards| && Line(boards, top, w).Some?
    ensures top <= w
    decreases w
  {
    if w != top {
      LineBelow(boards, top, boards[w].prev.value);
    }
  }

  /** A line from a child of `b` extends to a line from `b`. */
  lemma {:induction false} LineUp(boards: seq<Board>, b: nat, c: nat, w: nat)
    requires ParentsBefore(boards) && w < |boards| && c < |boards|
    requires boards[c].prev == Some(b) && Line(boards, c, w).Some?
    ensures Line(boards, b, w) == Some([boards[b].squares] + Line(boards, c, w).value)
    decreases w
  {
    LineBelow(boards, c, w);
    if w != c {
      var p := boards[w].prev.value;
      LineUp(boards, b, c, p);
      assert [boards[b].squares] + Line(boards, c, p).value + [boards[w].squares] ==
        [boards[b].squares] + (Line(boards, c, p).value + [boards[w].squares]);
    }
  }

  /** The indices of the boards on the prev chain of `w`, from the board
      that has no parent down to `w`. */
  ghost function Ancestry(boards: seq<Board>, w: nat): (ix: seq<nat>)
    requires ParentsBefore(boards) && w < |boards|
    ensures |ix| >= 1 && ix[|ix| - 1] == w
    ensures forall t :: 0 <= t < |ix| ==> ix[t] <= w
    decreases w
  {
    match boards[w].prev
    case None => [w]
    case Some(p) => Ancestry(boards, p) + [w]
  }

  lemma {:induction false} AncestryFacts(boards: seq<Board>, w: nat)
    requires ParentsBefore(boards) && w < |boards|
    ensures boards[Ancestry(boards, w)[0]].prev == None
    ensures forall t :: 0 < t < |Ancestry(boards, w)| ==>
      boards[Ancestry(boards, w)[t]].prev == Some(Ancestry(boards, w)[t - 1])
    decreases w
  {
    if boards[w].prev.Some? {
      AncestryFacts(boards, boards[w].prev.value);
    }
  }

  /** The ancestry runs in creation order: every board on it was created
      after the ones above it. */
  lemma {:induction false} AncestryIncreasing(boards: seq<Board>, w: nat)
    requires ParentsBefore(boards) && w < |boards|
    ensures forall s, s' :: 0 <= s < s' < |Ancestry(boards, w)| ==> Ancestry(boards, w)[s] < Ancestry(boards, w)[s']
    decreases w
  {
    if boards[w].prev.Some? {
      var p := boards[w].prev.value;
      AncestryIncreasing(boards, p);
      var up, ix := Ancestry(boards, p), Ancestry(boards, w);
      assert ix == up + [w];
      assert p < w;
      forall s, s' | 0 <= s < s' < |ix| ensures ix[s] < ix[s'] {
        assert ix[s] == up[s] <= p;
        if s' < |up| {
          assert ix[s'] == up[s'] && up[s] < up[s'];
        }
      }
    }
  }

  /** The squares of the boards `ix`. */
  ghost function GridsOf(boards: seq<Board>, ix: seq<nat>): seq<Grid>
    requires forall t :: 0 <= t < |ix| ==> ix[t] < |boards|
  {
    seq(|ix|, t requires 0 <= t < |ix| => boards[ix[t]].squares)
  }

  /** From the root, the line to `w` is the squares of `w`'s ancestry. */
  lemma {:induction false} LineIsAncestry(boards: seq<Board>, w: nat)
    requires ArenaValid(boards) && w < |boards|
    ensures Line(boards, 0, w) == Some(GridsOf(boards, Ancestry(boards, w)))
    decreases w
  {
    AncestryFacts(boards, w);
    if w != 0 {
      var p := boards[w].prev.value;
      LineIsAncestry(boards, p);
      assert GridsOf(boards, Ancestry(boards, w)) == GridsOf(boards, Ancestry(boards, p)) + [boards[w].squares];
    } else {
      assert GridsOf(boards, [0]) == [boards[0].squares];
    }
  }

  /** The arena after board `b` gets a new child with squares `h`. */
  function AddedChild(boards: seq<Board>, b: nat, h: Grid): (nb: seq<Board>)
    requires b < |boards|
    ensures |nb| == |boards| + 1 && Extends(boards, nb)
    ensures nb[b].next == boards[b].next + [|boards|]
    ensures nb[|boards|] == Board(h, [], Some(b), None)
    ensures forall k :: 0 <= k < |boards| && k != b ==> nb[k] == boards[k]
  {
    boards[b := boards[b].(next := boards[b].next + [|boards|])] + [Board(h, [], Some(b), None)]
  }

  /** Adding a child keeps the arena one well-formed tree. */
  lemma AddedChildValid(boards: seq<Board>, b: nat, h: Grid)
    requires ArenaValid(boards) && b < |boards| && WellFormed(h)
    ensures ArenaValid(AddedChild(boards, b, h))
  {
    var nb := AddedChild(boards, b, h);
    forall k, j | 0 <= k < |nb| && 0 <= j < |nb[k].next|
      ensures nb[k].next[j] < |nb| && nb[nb[k].next[j]].prev == Some(k)
    {
      if k == b && j == |boards[b].next| {
      } else {
        assert nb[k].next[j] == boards[k].next[j];
      }
    }
  }

  /** `boards` with the nextwin links set along `ix` from position `t` on:
      board ix[s] links to ix[s + 1] for every t <= s < |ix| - 1. */
  ghost function LinkedFrom(boards: seq<Board>, ix: seq<nat>, t: nat): (nb: seq<Board>)
    requires t < |ix| && forall s :: 0 <= s < |ix| ==> ix[s] < |boards|
    ensures |nb| == |boards|
    decreases |ix| - t
  {
    if t == |ix| - 1 then boards
    else
      var nb := LinkedFrom(boards, ix, t + 1);
      nb[ix[t] := nb[ix[t]].(nextwin := Some(ix[t + 1]))]
  }

  /** Setting links changes nothing but links. */
  lemma {:induction false} LinkedFromFrame(boards: seq<Board>, ix: seq<nat>, t: nat)
    requires t < |ix| && forall s :: 0 <= s < |ix| ==> ix[s] < |boards|
    ensures forall k :: 0 <= k < |boards| ==>
      LinkedFrom(boards, ix, t)[k] == boards[k].(nextwin := LinkedFrom(boards, ix, t)[k].nextwin)
    decreases |ix| - t
  {
    if t < |ix| - 1 {
      LinkedFromFrame(boards, ix, t + 1);
    }
  }

  /** Along an increasing `ix`, LinkedFrom links each board of `ix` from
      position `t` on to the next one. */
  lemma {:induction false} LinkedFromLinks(boards: seq<Board>, ix: seq<nat>, t: nat)
    requires t < |ix| && forall s :: 0 <= s < |ix| ==> ix[s] < |boards|
    requires forall s, s' :: 0 <= s < s' < |ix| ==> ix[s] < ix[s']
    ensures forall s :: t <= s < |ix| - 1 ==> LinkedFrom(boards, ix, t)[ix[s]].nextwin == Some(ix[s + 1])
    decreases |ix| - t
  {
    if t < |ix| - 1 {
      LinkedFromLinks(boards, ix, t + 1);
      assert forall s :: t < s < |ix| ==> ix[t] < ix[s];
    }
  }

  /** On boards without links, LinkedFrom leaves unlinked every board that
      is not on `ix` before its last position. */
  lemma {:induction false} LinkedFromUnset(boards: seq<Board>, ix: seq<nat>, t: nat)
    requires t < |ix| && forall s :: 0 <= s < |ix| ==> ix[s] < |boards|
    requires forall k :: 0 <= k < |boards| ==> boards[k].nextwin == None
    ensures forall k :: 0 <= k < |boards| && k !in ix[t..|ix| - 1] ==> LinkedFrom(boards, ix, t)[k].nextwin == None
    decreases |ix| - t
  {
    if t < |ix| - 1 {
      LinkedFromUnset(boards, ix, t + 1);
      assert ix[t..|ix| - 1] == [ix[t]] + ix[t + 1..|ix| - 1];
    }
  }

  /** Setting links leaves every prev link as it was. */
  lemma {:induction false} LinkedFromPrev(boards: seq<Board>, ix: seq<nat>, t: nat, k: nat)
    requires t < |ix| && forall s :: 0 <= s < |ix| ==> ix[s] < |boards|
    requires k < |boards|
    ensures LinkedFrom(boards, ix, t)[k].prev == boards[k].prev
    decreases |ix| - t
  {
    if t < |ix| - 1 {
      LinkedFromPrev(boards, ix, t + 1, k);
    }
  }

  /** What the reconstruction of the winning line needs: on a tree whose
      boards have no links yet, the ancestry of `w` starts at the starting
      board and holds `w` once; setting the links along it changes no
      squares and links exactly along it; and its squares are the line
      from the starting board to `w`. */
  lemma WinningLineFacts(boards: seq<Board>, w: nat)
    requires ArenaValid(boards) && w < |boards|
    requires forall k :: 0 <= k < |boards| ==> boards[k].nextwin == None
    ensures var ix := Ancestry(boards, w); var nb := LinkedFrom(boards, ix, 0);
      ix[0] == 0 && (forall s :: 0 <= s < |ix| - 1 ==> ix[s] != w) &&
      (forall k :: 0 <= k < |boards| ==> nb[k] == boards[k].(nextwin := nb[k].nextwin)) &&
      LinkedAlong(nb, ix) && GridsOf(nb, ix) == GridsOf(boards, ix) &&
      Line(boards, 0, w) == Some(GridsOf(boards, ix))
  {
    AncestryFromRoot(boards, w);
    LinkedAncestry(boards, w);
    GridsOfLinks(boards, LinkedFrom(boards, Ancestry(boards, w), 0), Ancestry(boards, w));
    LineIsAncestry(boards, w);
  }

  /** In a valid arena, the ancestry of `w` starts at the starting board and
      holds `w` only at its end. */
  lemma AncestryFromRoot(boards: seq<Board>, w: nat)
    requires ArenaValid(boards) && w < |boards|
    ensures Ancestry(boards, w)[0] == 0
    ensures forall s :: 0 <= s < |Ancestry(boards, w)| - 1 ==> Ancestry(boards, w)[s] != w
  {
    AncestryFacts(boards, w);
    AncestryIncreasing(boards, w);
  }

  /** Setting the links along the ancestry of `w`, on boards without links,
      changes nothing but links, and links exactly along the ancestry. */
  lemma LinkedAncestry(boards: seq<Board>, w: nat)
    requires ParentsBefore(boards) && w < |boards|
    requires forall k :: 0 <= k < |boards| ==> boards[k].nextwin == None
    ensures var ix := Ancestry(boards, w); var nb := LinkedFrom(boards, ix, 0);
      (forall k :: 0 <= k < |boards| ==> nb[k] == boards[k].(nextwin := nb[k].nextwin)) &&
      LinkedAlong(nb, ix)
  {
    var ix := Ancestry(boards, w);
    AncestryIncreasing(boards, w);
    LinkedFromFrame(boards, ix, 0);
    LinkedFromLinks(boards, ix, 0);
    LinkedFromUnset(boards, ix, 0);
    assert ix[0..|ix| - 1] == ix[..|ix| - 1];
  }

  /** Boards that differ only in their links have the same squares along
      any index sequence. */
  lemma GridsOfLinks(ob: seq<Board>, nb: seq<Board>, ix: seq<nat>)
    requires |ob| == |nb| && forall t :: 0 <= t < |ix| ==> ix[t] < |ob|
    requires forall k :: 0 <= k < |ob| ==> nb[k] == ob[k].(nextwin := nb[k].nextwin)
    ensures GridsOf(nb, ix) == GridsOf(ob, ix)
  {
  }

  /** The nextwin links run along `ix` and nowhere else. */
  ghost predicate LinkedAlong(boards: seq<Board>, ix: seq<nat>) {
    |ix| >= 1 &&
    (forall t :: 0 <= t < |ix| ==> ix[t] < |boards|) &&
    (forall t :: 0 <= t < |ix| - 1 ==> boards[ix[t]].nextwin == Some(ix[t + 1])) &&
    (forall k :: 0 <= k < |boards| && k !in ix[..|ix| - 1] ==> boards[k].nextwin == None)
  }

}
