/**
 * The board transformers: each takes a board and returns a new one, changing
 * only cell states, never values or the board's shape. Together they make up
 * the selection marks, the explosion that clears the matched cells, and the
 * reveal of covered cells around the pivot.
 */
module Transform {
  import opened Wrappers
  import opened Grid
  import opened Shapes

  /** Every selecting cell goes back to revealed; every other cell is kept. */
  function RevertSelecting(b: Board): (r: Board)
    ensures SameShape(b, r)
    ensures forall p :: Has(b, p) ==> At(r, p).value == At(b, p).value
    ensures forall p :: Has(b, p) ==>
      At(r, p).state == (if At(b, p).state == Selecting then Revealed else At(b, p).state)
    ensures forall p :: Has(r, p) ==> At(r, p).state != Selecting
  {
    MapBoard(b, (p: Coord, cell: Cell) => if cell.state == Selecting then cell.(state := Revealed) else cell)
  }

  /** Reverting twice is reverting once. */
  lemma RevertSelectingIdempotent(b: Board)
    ensures RevertSelecting(RevertSelecting(b)) == RevertSelecting(b)
  {
    var once := RevertSelecting(b);
    BoardsEqual(RevertSelecting(once), once);
  }

  /**
   * The listed cells take the state next; every other cell, and every value,
   * is kept. An empty list returns the board as it is.
   */
  function MarkCellsState(b: Board, cells: seq<Coord>, next: CellState): (r: Board)
    ensures SameShape(b, r)
    ensures forall p :: Has(b, p) ==> At(r, p).value == At(b, p).value
    ensures forall p :: Has(b, p) ==> At(r, p).state == (if p in cells then next else At(b, p).state)
    ensures cells == [] ==> r == b
  {
    if |cells| == 0 then b
    else
      var keys := CoordSet(cells);
      MapBoard(b, (p: Coord, cell: Cell) =>
        if p !in keys then cell
        else if cell.state == next then cell
        else cell.(state := next))
  }

  /** The coordinates of a selection, in order. */
  function Positions(selection: seq<Entry>): (r: seq<Coord>)
    ensures |r| == |selection|
    ensures forall k :: 0 <= k < |selection| ==> r[k] == selection[k].at
  {
    seq(|selection|, k requires 0 <= k < |selection| => selection[k].at)
  }

  /** The pivot of a path is its last, most recently selected, cell. */
  function Pivot(path: seq<Entry>): Coord
    requires |path| > 0
  {
    path[|path| - 1].at
  }

  /**
   * The cells an explosion clears: the selection itself plus a bonus shape
   * around the pivot, the 3×3 square for paths of five or more cells, the
   * cross for three or four, nothing for shorter paths; without repeats.
   */
  function ExplosionTargets(selection: seq<Entry>): (t: seq<Coord>)
    requires |selection| > 0
    ensures Distinct(t)
    ensures forall q :: q in t <==>
      q in Positions(selection) ||
      (|selection| >= 3 && InBounds(q) &&
       (if |selection| >= 5 then InSquare(Pivot(selection), q) else InCross(Pivot(selection), q)))
  {
    var pivot := Pivot(selection);
    var bonus := if |selection| >= 5 then Square(pivot)
                 else if |selection| >= 3 then CrossCells(pivot)
                 else [];
    UniqueCells(Positions(selection) + bonus)
  }

  /**
   * The explosion after a successful match: every target cell becomes
   * cleared, every other cell and every value is kept, and an empty selection
   * leaves the board as it is.
   */
  function ApplyExplosionClear(b: Board, selection: seq<Entry>): (r: Board)
    ensures SameShape(b, r)
    ensures forall p :: Has(b, p) ==> At(r, p).value == At(b, p).value
    ensures |selection| > 0 ==> forall p :: Has(b, p) ==>
      At(r, p).state == (if p in ExplosionTargets(selection) then Cleared else At(b, p).state)
    ensures selection == [] ==> r == b
  {
    if |selection| == 0 then b
    else
      var keys := CoordSet(ExplosionTargets(selection));
      MapBoard(b, (p: Coord, cell: Cell) =>
        if p in keys then (if cell.state == Cleared then cell else cell.(state := Cleared))
        else cell)
  }

  /** A two-cell selection clears exactly its two cells: the bonus shape is empty for it. */
  lemma ExplosionClearOfPair(b: Board, selection: seq<Entry>)
    requires |selection| == 2
    ensures forall p :: Has(b, p) ==>
      At(ApplyExplosionClear(b, selection), p).state ==
      (if p == selection[0].at || p == selection[1].at then Cleared else At(b, p).state)
  {
    assert Positions(selection) == [selection[0].at, selection[1].at];
  }

  /**
   * Whatever its length, an explosion changes only cells of the selection and
   * on-board cells within one row and one column of the pivot.
   */
  lemma ExplosionIsLocal(b: Board, selection: seq<Entry>)
    requires |selection| > 0
    ensures forall p :: Has(b, p) && At(ApplyExplosionClear(b, selection), p) != At(b, p) ==>
      p in Positions(selection) || (InBounds(p) && InSquare(Pivot(selection), p))
  {
    var r := ApplyExplosionClear(b, selection);
    forall p | Has(b, p) && At(r, p) != At(b, p)
      ensures p in Positions(selection) || (InBounds(p) && InSquare(Pivot(selection), p))
    {
      assert p in ExplosionTargets(selection);
    }
  }

  /**
   * The targeted cells that are covered become revealed; every other cell is
   * kept, so cleared, void, revealed, selecting and success cells are never
   * touched. An empty target list returns the board as it is.
   */
  function RevealCoveredCells(b: Board, targets: seq<Coord>): (r: Board)
    ensures SameShape(b, r)
    ensures forall p :: Has(b, p) ==> At(r, p).value == At(b, p).value
    ensures forall p :: Has(b, p) ==>
      At(r, p).state == (if p in targets && At(b, p).state == Covered then Revealed else At(b, p).state)
    ensures targets == [] ==> r == b
  {
    if |targets| == 0 then b
    else
      var keys := CoordSet(targets);
      MapBoard(b, (p: Coord, cell: Cell) =>
        if p in keys && cell.state == Covered then cell.(state := Revealed) else cell)
  }

  /** Revealing the same targets again changes nothing. */
  lemma RevealCoveredIdempotent(b: Board, targets: seq<Coord>)
    ensures RevealCoveredCells(RevealCoveredCells(b, targets), targets) == RevealCoveredCells(b, targets)
  {
    var once := RevealCoveredCells(b, targets);
    BoardsEqual(RevealCoveredCells(once, targets), once);
  }

  /**
   * The deferred cascade of a successful match, as one board update: the
   * explosion clear followed by the reveal around the pivot.
   */
  function Cascade(b: Board, path: seq<Entry>): (r: Board)
    ensures SameShape(b, r)
    ensures forall p :: Has(b, p) ==> At(r, p).value == At(b, p).value
    ensures forall p :: Has(b, p) && At(b, p).state == Cleared ==> At(r, p).state == Cleared
    ensures path == [] ==> r == b
  {
    var pivot := if |path| == 0 then None else Some(Pivot(path));
    RevealCoveredCells(ApplyExplosionClear(b, path), GetRevealTargets(|path|, pivot))
  }

  /**
   * The cascade of a two-cell match: both selected cells become cleared, the
   * covered cells of the pivot's cross become revealed, and nothing else
   * changes.
   */
  lemma CascadeOfPair(b: Board, path: seq<Entry>)
    requires |path| == 2
    ensures SameShape(b, Cascade(b, path))
    ensures forall p :: Has(b, p) ==> At(Cascade(b, path), p).value == At(b, p).value
    ensures forall p :: Has(b, p) ==>
      At(Cascade(b, path), p).state ==
        (if p == path[0].at || p == path[1].at then Cleared
         else if InBounds(p) && InCross(path[1].at, p) && At(b, p).state == Covered then Revealed
         else At(b, p).state)
  {
    ExplosionClearOfPair(b, path);
  }
}
