/**
 * The MineSum10 board: a 9×9 grid of cells, each holding a value and a
 * lifecycle state. A cell is identified by its position; the fresh board has
 * a void centre, a revealed ring of eight cells around it, and every other
 * cell covered.
 */
module Grid {

  /** Side of the square board. */
  const BOARD_SIZE: int := 9
  /** Row and column of the centre cell, floor(BOARD_SIZE / 2). */
  const CENTER_INDEX: int := BOARD_SIZE / 2
  /** The value carried by the void cell, which has no number (null in the game). */
  const NO_VALUE: int := 0

  datatype Coord = Coord(r: int, c: int)

  const CENTRE: Coord := Coord(CENTER_INDEX, CENTER_INDEX)

  datatype CellState = Covered | Revealed | Selecting | Success | Cleared | Void

  datatype Cell = Cell(value: int, state: CellState)

  /** One entry of a selection: where the picked cell is and the value it had when picked. */
  datatype Entry = Entry(at: Coord, value: int)

  /** A board is a list of rows; the game's boards are always BOARD_SIZE × BOARD_SIZE. */
  type Board = seq<seq<Cell>>

  /** The game's inBounds: the board is the square of cells within CENTER_INDEX rows and columns of the centre. */
  function InBounds(p: Coord): (inside: bool)
    ensures inside <==> Abs(p.r - CENTER_INDEX) <= CENTER_INDEX && Abs(p.c - CENTER_INDEX) <= CENTER_INDEX
  {
    p.r >= 0 && p.c >= 0 && p.r < BOARD_SIZE && p.c < BOARD_SIZE
  }

  /** g has BOARD_SIZE rows of BOARD_SIZE entries. */
  predicate IsGrid<T>(g: seq<seq<T>>) {
    |g| == BOARD_SIZE && forall i :: 0 <= i < |g| ==> |g[i]| == BOARD_SIZE
  }

  /** p names a cell of b. */
  predicate Has(b: Board, p: Coord) {
    0 <= p.r < |b| && 0 <= p.c < |b[p.r]|
  }

  function At(b: Board, p: Coord): Cell
    requires Has(b, p)
  {
    b[p.r][p.c]
  }

  /** a and b have the same rows of the same lengths. */
  predicate SameShape(a: Board, b: Board) {
    |a| == |b| && forall i :: 0 <= i < |a| ==> |a[i]| == |b[i]|
  }

  /** The board obtained by rewriting every cell with f (the game's board.map(row => row.map(...))). */
  function MapBoard(b: Board, f: (Coord, Cell) -> Cell): (r: Board)
    ensures SameShape(b, r)
    ensures forall p :: Has(b, p) ==> At(r, p) == f(p, At(b, p))
  {
    seq(|b|, i requires 0 <= i < |b| =>
      seq(|b[i]|, j requires 0 <= j < |b[i]| => f(Coord(i, j), b[i][j])))
  }

  /** Two boards of the same shape that agree on every cell are equal. */
  lemma BoardsEqual(a: Board, b: Board)
    requires SameShape(a, b)
    requires forall p :: Has(a, p) ==> At(a, p) == At(b, p)
    ensures a == b
  {
    forall i | 0 <= i < |a|
      ensures a[i] == b[i]
    {
      forall j | 0 <= j < |a[i]|
        ensures a[i][j] == b[i][j]
      {
        assert At(a, Coord(i, j)) == At(b, Coord(i, j));
      }
    }
  }

  // ---------------------------------------------------------------------------
  // Coordinate lists: offsets moved to a pivot, and the in-bounds filter
  // ---------------------------------------------------------------------------

  function Abs(x: int): nat {
    if x < 0 then -x else x
  }

  /** The offsets visited by the nested loops over dr = -1..1 and dc = -1..1, in loop order. */
  const SQUARE_OFFSETS: seq<(int, int)> :=
    [(-1, -1), (-1, 0), (-1, 1), (0, -1), (0, 0), (0, 1), (1, -1), (1, 0), (1, 1)]

  /** Index in SQUARE_OFFSETS of the pass with row offset dr and column offset dc. */
  function LoopIndex(dr: int, dc: int): int {
    3 * (dr + 1) + (dc + 1)
  }

  /** Each offset added to the pivot p. */
  function Translate(p: Coord, offsets: seq<(int, int)>): (r: seq<Coord>)
    ensures |r| == |offsets|
    ensures forall k :: 0 <= k < |offsets| ==> r[k] == Coord(p.r + offsets[k].0, p.c + offsets[k].1)
  {
    seq(|offsets|, k requires 0 <= k < |offsets| => Coord(p.r + offsets[k].0, p.c + offsets[k].1))
  }

  /** The 3×3 block around p, in loop order, with no clipping. */
  function Neighbourhood(p: Coord): seq<Coord> {
    Translate(p, SQUARE_OFFSETS)
  }

  lemma NeighbourhoodLiteral(p: Coord)
    ensures Neighbourhood(p) ==
      [Coord(p.r - 1, p.c - 1), Coord(p.r - 1, p.c), Coord(p.r - 1, p.c + 1),
       Coord(p.r, p.c - 1), Coord(p.r, p.c), Coord(p.r, p.c + 1),
       Coord(p.r + 1, p.c - 1), Coord(p.r + 1, p.c), Coord(p.r + 1, p.c + 1)]
  {
  }

  /** The 3×3 block is exactly the coordinates within one row and one column of p. */
  lemma NeighbourhoodMembers(p: Coord)
    ensures forall q :: q in Neighbourhood(p) <==> Abs(q.r - p.r) <= 1 && Abs(q.c - p.c) <= 1
  {
    NeighbourhoodLiteral(p);
  }

  /** The pass of the nested loops with offsets (dr, dc) visits Neighbourhood(p)[LoopIndex(dr, dc)]. */
  lemma NeighbourAt(p: Coord, dr: int, dc: int)
    requires -1 <= dr <= 1 && -1 <= dc <= 1
    ensures 0 <= LoopIndex(dr, dc) < |Neighbourhood(p)|
    ensures Neighbourhood(p)[LoopIndex(dr, dc)] == Coord(p.r + dr, p.c + dc)
  {
    NeighbourhoodLiteral(p);
  }

  /** The coordinates listed in cells, as a set (the game's Set of cell keys). */
  function CoordSet(cells: seq<Coord>): set<Coord> {
    set q | q in cells
  }

  /** The elements of s that satisfy keep, in order (the game's Array.filter). */
  function Filter(s: seq<Coord>, keep: Coord -> bool): (r: seq<Coord>)
    ensures |r| <= |s|
  {
    if s == [] then []
    else
      var last := s[|s| - 1];
      Filter(s[..|s| - 1], keep) + (if keep(last) then [last] else [])
  }

  /** Filter keeps exactly the elements of s that keep accepts. */
  lemma {:induction false} FilterMembers(s: seq<Coord>, keep: Coord -> bool)
    ensures forall q :: q in Filter(s, keep) <==> q in s && keep(q)
  {
    if s != [] {
      var last := s[|s| - 1];
      assert s == s[..|s| - 1] + [last];
      FilterMembers(s[..|s| - 1], keep);
    }
  }

  /**
   * The pass (dr, dc) of the nested loops over the block around p extends
   * the filtered prefix by Coord(p.r + dr, p.c + dc) when that is kept.
   */
  lemma FilterStep(p: Coord, dr: int, dc: int, keep: Coord -> bool)
    requires -1 <= dr <= 1 && -1 <= dc <= 1
    ensures LoopIndex(dr, dc + 1) == LoopIndex(dr, dc) + 1
    ensures Filter(Neighbourhood(p)[..LoopIndex(dr, dc) + 1], keep) ==
      Filter(Neighbourhood(p)[..LoopIndex(dr, dc)], keep) +
      (if keep(Coord(p.r + dr, p.c + dc)) then [Coord(p.r + dr, p.c + dc)] else [])
  {
    NeighbourAt(p, dr, dc);
    FilterSnoc(Neighbourhood(p), LoopIndex(dr, dc), keep);
  }

  /** Filtering a concatenation filters each part. */
  lemma {:induction false} FilterConcat(a: seq<Coord>, b: seq<Coord>, keep: Coord -> bool)
    ensures Filter(a + b, keep) == Filter(a, keep) + Filter(b, keep)
  {
    var ab := a + b;
    if b == [] {
      assert ab == a;
    } else {
      assert ab[..|ab| - 1] == a + b[..|b| - 1];
      assert ab[|ab| - 1] == b[|b| - 1];
      FilterConcat(a, b[..|b| - 1], keep);
    }
  }

  /** Filtering keeps s whole when keep accepts every element. */
  lemma {:induction false} FilterAll(s: seq<Coord>, keep: Coord -> bool)
    requires forall k :: 0 <= k < |s| ==> keep(s[k])
    ensures Filter(s, keep) == s
  {
    if s != [] {
      FilterAll(s[..|s| - 1], keep);
    }
  }

  /** Filtering one more element of s appends it when it is kept. */
  lemma FilterSnoc(s: seq<Coord>, k: int, keep: Coord -> bool)
    requires 0 <= k < |s|
    ensures Filter(s[..k + 1], keep) == Filter(s[..k], keep) + (if keep(s[k]) then [s[k]] else [])
  {
    assert s[..k + 1][..k] == s[..k];
  }

  // ---------------------------------------------------------------------------
  // The ring around the centre
  // ---------------------------------------------------------------------------

  /** p is one of the eight cells around the centre. */
  predicate IsRing(p: Coord) {
    p != CENTRE && Abs(p.r - CENTER_INDEX) <= 1 && Abs(p.c - CENTER_INDEX) <= 1
  }

  predicate NotCentre(p: Coord) {
    p != CENTRE
  }

  /**
   * The nested loops over dr = -1..1 and dc = -1..1 shared by the ring and
   * by the 3×3 shape: each pass pushes Coord(p.r + dr, p.c + dc) when keep
   * accepts it, so the result is the kept part of the block around p, in
   * loop order.
   */
  method CollectBlock(p: Coord, keep: Coord -> bool) returns (coords: seq<Coord>)
    ensures coords == Filter(Neighbourhood(p), keep)
  {
    coords := [];
    for dr := -1 to 2
      invariant coords == Filter(Neighbourhood(p)[..LoopIndex(dr, -1)], keep)
    {
      for dc := -1 to 2
        invariant coords == Filter(Neighbourhood(p)[..LoopIndex(dr, dc)], keep)
      {
        FilterStep(p, dr, dc, keep);
        if keep(Coord(p.r + dr, p.c + dc)) {
          coords := coords + [Coord(p.r + dr, p.c + dc)];
        }
      }
    }
    assert Neighbourhood(p)[..LoopIndex(2, -1)] == Neighbourhood(p);
  }

  /**
   * The coordinates of the ring: the block around the centre without the
   * (0, 0) pass. They are eight, and exactly the cells around the centre.
   */
  method GetCenterRingCoords() returns (coords: seq<Coord>)
    ensures |coords| == 8
    ensures forall q :: q in coords <==> IsRing(q)
  {
    coords := CollectBlock(CENTRE, NotCentre);
    RingMembers();
    RingLength();
  }

  /** Leaving out just the pivot keeps eight cells of the block around it. */
  lemma BlockWithoutPivot(p: Coord, keep: Coord -> bool)
    requires forall q :: keep(q) <==> q != p
    ensures |Filter(Neighbourhood(p), keep)| == 8
  {
    var n := Neighbourhood(p);
    NeighbourhoodLiteral(p);
    assert n == n[..4] + [n[4]] + n[5..];
    FilterConcat(n[..4] + [n[4]], n[5..], keep);
    FilterConcat(n[..4], [n[4]], keep);
    FilterAll(n[..4], keep);
    FilterAll(n[5..], keep);
    assert Filter([n[4]], keep) == [];
  }

  /** The block around the centre has eight cells besides the centre. */
  lemma RingLength()
    ensures |Filter(Neighbourhood(CENTRE), NotCentre)| == 8
  {
    BlockWithoutPivot(CENTRE, NotCentre);
  }

  /** Dropping the centre from the block around it leaves exactly the ring. */
  lemma RingMembers()
    ensures forall q :: q in Filter(Neighbourhood(CENTRE), NotCentre) <==> IsRing(q)
  {
    FilterMembers(Neighbourhood(CENTRE), NotCentre);
    NeighbourhoodMembers(CENTRE);
  }

  // ---------------------------------------------------------------------------
  // The fresh board
  // ---------------------------------------------------------------------------

  /** The state a cell starts in: void at the centre, revealed on the ring, covered elsewhere. */
  function InitialState(p: Coord): (s: CellState)
    ensures s == Void <==> p == CENTRE
    ensures s == Revealed <==> IsRing(p)
    ensures s == Covered <==> p != CENTRE && !IsRing(p)
    ensures s != Selecting && s != Success && s != Cleared
  {
    if p == CENTRE then Void
    else if IsRing(p) then Revealed
    else Covered
  }

  /** A new cell: the void cell gets no value, every other cell the value drawn for it. */
  function CreateCell(value: int, state: CellState): (cell: Cell)
    ensures cell.state == state
    ensures state == Void ==> cell.value == NO_VALUE
    ensures state != Void ==> cell.value == value
  {
    Cell(if state == Void then NO_VALUE else value, state)
  }

  /** The random draws take values 1 to 9 (floor(random * 9) + 1). */
  predicate ValidDraws(values: seq<seq<int>>) {
    IsGrid(values) &&
    forall i, j :: 0 <= i < |values| && 0 <= j < |values[i]| ==> 1 <= values[i][j] <= 9
  }

  /**
   * A fresh board; values[r][c] is the random draw for the cell at (r, c).
   * The centre is void with no value, exactly the eight ring cells are
   * revealed, every other cell is covered, and every non-void cell carries
   * its draw.
   */
  function CreateBoard(values: seq<seq<int>>): (b: Board)
    requires IsGrid(values)
    ensures IsGrid(b)
    ensures At(b, CENTRE) == Cell(NO_VALUE, Void)
    ensures forall p :: Has(b, p) ==> (At(b, p).state == Void <==> p == CENTRE)
    ensures forall p :: Has(b, p) ==> (At(b, p).state == Revealed <==> IsRing(p))
    ensures forall p :: Has(b, p) ==> (At(b, p).state == Covered <==> p != CENTRE && !IsRing(p))
    ensures forall p :: Has(b, p) && p != CENTRE ==> At(b, p).value == values[p.r][p.c]
  {
    seq(BOARD_SIZE, r requires 0 <= r < BOARD_SIZE =>
      seq(BOARD_SIZE, c requires 0 <= c < BOARD_SIZE =>
        CreateCell(values[r][c], InitialState(Coord(r, c)))))
  }

  /** With draws from 1 to 9, every non-void cell of a fresh board has a value from 1 to 9. */
  lemma FreshValuesInRange(values: seq<seq<int>>)
    requires ValidDraws(values)
    ensures forall p :: Has(CreateBoard(values), p) && At(CreateBoard(values), p).state != Void ==>
      1 <= At(CreateBoard(values), p).value <= 9
  {
    var b := CreateBoard(values);
    forall p | Has(b, p) && At(b, p).state != Void
      ensures 1 <= At(b, p).value <= 9
    {
      assert 0 <= p.c < |values[p.r]|;
    }
  }

  // ---------------------------------------------------------------------------
  // Opened cells
  // ---------------------------------------------------------------------------

  /** A cell counts as opened when it is neither covered nor void. */
  predicate IsOpened(cell: Cell) {
    cell.state != Covered && cell.state != Void
  }

  /** The rows of b one after another (board.flat()). */
  function Flatten(b: Board): seq<Cell> {
    if b == [] then [] else Flatten(b[..|b| - 1]) + b[|b| - 1]
  }

  /** The number of opened cells in s; never more than |s|. */
  function CountOpened(s: seq<Cell>): (n: nat)
    ensures n <= |s|
  {
    if s == [] then 0
    else CountOpened(s[..|s| - 1]) + (if IsOpened(s[|s| - 1]) then 1 else 0)
  }

  /** The number of opened cells of the board. */
  function OpenedCount(b: Board): (n: nat)
    ensures n <= |Flatten(b)|
  {
    CountOpened(Flatten(b))
  }

  lemma {:induction false} FlattenLength(b: Board)
    requires forall i :: 0 <= i < |b| ==> |b[i]| == BOARD_SIZE
    ensures |Flatten(b)| == BOARD_SIZE * |b|
  {
    if b != [] {
      FlattenLength(b[..|b| - 1]);
    }
  }

  lemma {:induction false} InFlatten(b: Board, p: Coord)
    requires Has(b, p)
    ensures At(b, p) in Flatten(b)
  {
    if p.r < |b| - 1 {
      InFlatten(b[..|b| - 1], p);
    }
  }

  /** A void cell in s is not opened, so fewer than |s| cells are. */
  lemma {:induction false} VoidNotOpened(s: seq<Cell>, x: Cell)
    requires x in s && x.state == Void
    ensures CountOpened(s) < |s|
  {
    var last := s[|s| - 1];
    assert s == s[..|s| - 1] + [last];
    if x != last {
      VoidNotOpened(s[..|s| - 1], x);
    }
  }

  /** On a full board with a void centre at most 80 cells (all but the void) are opened. */
  lemma OpenedCountBound(b: Board)
    requires IsGrid(b) && At(b, CENTRE).state == Void
    ensures OpenedCount(b) <= BOARD_SIZE * BOARD_SIZE - 1
  {
    FlattenLength(b);
    InFlatten(b, CENTRE);
    VoidNotOpened(Flatten(b), At(b, CENTRE));
  }
}
