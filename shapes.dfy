/**
 * The blast shapes around a pivot cell: the orthogonal cross and the 3×3
 * square, both clipped to the board, the de-duplication of target lists, and
 * the choice of reveal shape by path length.
 */
module Shapes {
  import opened Wrappers
  import opened Grid

  /** The offsets of the cross in the order the game lists them: the pivot, down, up, right, left. */
  const CROSS_OFFSETS: seq<(int, int)> := [(0, 0), (1, 0), (-1, 0), (0, 1), (0, -1)]

  /** q is the pivot p or one of its four orthogonal neighbours. */
  predicate InCross(p: Coord, q: Coord) {
    Abs(q.r - p.r) + Abs(q.c - p.c) <= 1
  }

  /** q lies within one row and one column of p. */
  predicate InSquare(p: Coord, q: Coord) {
    Abs(q.r - p.r) <= 1 && Abs(q.c - p.c) <= 1
  }

  /**
   * The pivot and its orthogonal neighbours that lie on the board: at most
   * five cells, all within one row and one column of the pivot, and the pivot
   * itself whenever it is on the board.
   */
  function CrossCells(pivot: Coord): (r: seq<Coord>)
    ensures |r| <= 5
    ensures forall q :: q in r <==> InBounds(q) && InCross(pivot, q)
    ensures forall q :: q in r ==> InSquare(pivot, q)
    ensures InBounds(pivot) ==> pivot in r
  {
    var cells := Translate(pivot, CROSS_OFFSETS);
    assert cells == [pivot, Coord(pivot.r + 1, pivot.c), Coord(pivot.r - 1, pivot.c),
                     Coord(pivot.r, pivot.c + 1), Coord(pivot.r, pivot.c - 1)];
    FilterMembers(cells, InBounds);
    Filter(cells, InBounds)
  }

  /**
   * The 3×3 block around the pivot clipped to the board, in the order of the
   * game's nested loops: at most nine cells, exactly the on-board cells within
   * one row and one column of the pivot, the pivot among them when it is on
   * the board.
   */
  function Square(pivot: Coord): (r: seq<Coord>)
    ensures |r| <= 9
    ensures forall q :: q in r <==> InBounds(q) && InSquare(pivot, q)
    ensures InBounds(pivot) ==> pivot in r
  {
    FilterMembers(Neighbourhood(pivot), InBounds);
    NeighbourhoodMembers(pivot);
    Filter(Neighbourhood(pivot), InBounds)
  }

  /** The game's squareCells: the nested loops that push every on-board cell of the block. */
  method SquareCells(pivot: Coord) returns (cells: seq<Coord>)
    ensures cells == Square(pivot)
  {
    cells := CollectBlock(pivot, InBounds);
  }

  /** No coordinate occurs twice in s. */
  predicate Distinct(s: seq<Coord>) {
    forall i, j :: 0 <= i < j < |s| ==> s[i] != s[j]
  }

  /**
   * The cells of s not already in seen, each at its first occurrence: the
   * result has no duplicates, holds exactly the elements of s outside seen,
   * and is s itself when s has no duplicates and avoids seen.
   */
  function Unique(s: seq<Coord>, seen: set<Coord>): (r: seq<Coord>)
    ensures Distinct(r)
    ensures forall q :: q in r <==> q in s && q !in seen
    ensures |r| <= |s|
    ensures Distinct(s) && (forall k :: 0 <= k < |s| ==> s[k] !in seen) ==> r == s
  {
    if s == [] then []
    else if s[0] in seen then Unique(s[1..], seen)
    else [s[0]] + Unique(s[1..], seen + {s[0]})
  }

  /** The game's uniqueCells: drop the repeated coordinates of a list, keeping first occurrences. */
  function UniqueCells(cells: seq<Coord>): (r: seq<Coord>)
    ensures Distinct(r)
    ensures forall q :: q in r <==> q in cells
    ensures Distinct(cells) ==> r == cells
  {
    Unique(cells, {})
  }

  /**
   * The cells a match reveals around its pivot: none without a pivot, the
   * 3×3 square for paths of five or more cells, and the cross for every
   * shorter path, including the two-cell pairs the game produces.
   */
  function GetRevealTargets(pathLength: int, pivot: Option<Coord>): (r: seq<Coord>)
    ensures pivot.None? ==> r == []
    ensures |r| <= (if pathLength >= 5 then 9 else 5)
    ensures pivot.Some? ==> forall q :: q in r <==>
      InBounds(q) && (if pathLength >= 5 then InSquare(pivot.value, q) else InCross(pivot.value, q))
  {
    match pivot
    case None => []
    case Some(p) => if pathLength >= 5 then Square(p) else CrossCells(p)
  }
}
