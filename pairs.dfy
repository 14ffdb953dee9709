/**
 * Completion detection: whether two distinct revealed cells still sum to 10.
 * The brute-force predicate PlayablePair is the reference; HasPlayablePairs
 * is the game's one-pass scan with a table of needed complements, proved to
 * agree with it on every board.
 */
module Pairs {
  import opened Grid

  /** The sum a matching pair must reach. */
  const TARGET_SUM: int := 10

  /** p and q are two different revealed cells of b whose values add up to 10. */
  predicate RevealedPair(b: Board, p: Coord, q: Coord) {
    Has(b, p) && Has(b, q) && p != q &&
    At(b, p).state == Revealed && At(b, q).state == Revealed &&
    At(b, p).value + At(b, q).value == TARGET_SUM
  }

  /** Some two distinct revealed cells of b sum to 10. */
  ghost predicate PlayablePair(b: Board) {
    exists p, q :: RevealedPair(b, p, q)
  }

  // ---------------------------------------------------------------------------
  // The row-major scan
  // ---------------------------------------------------------------------------

  /** p comes before position (i, j) in row-major order. */
  predicate Before(p: Coord, i: int, j: int) {
    p.r < i || (p.r == i && p.c < j)
  }

  /** p is a revealed cell of b that the scan has passed when it stands at (i, j). */
  predicate Scanned(b: Board, p: Coord, i: int, j: int) {
    Has(b, p) && Before(p, i, j) && At(b, p).state == Revealed
  }

  /** Some revealed cell passed before (i, j) has value v. */
  ghost predicate SeenValue(b: Board, i: int, j: int, v: int) {
    exists p :: Scanned(b, p, i, j) && At(b, p).value == v
  }

  /** Two revealed cells passed before (i, j) already form a pair. */
  ghost predicate PairBefore(b: Board, i: int, j: int) {
    exists p, q :: RevealedPair(b, p, q) && Before(p, i, j) && Before(q, i, j)
  }

  /** The count recorded for key k, 0 when k is absent (a missing Map entry is falsy). */
  function Get(m: map<int, nat>, k: int): nat {
    if k in m then m[k] else 0
  }

  /** The table of needed values: v is needed exactly when a passed revealed cell has value 10 - v. */
  ghost predicate NeededInv(b: Board, needed: map<int, nat>, i: int, j: int) {
    forall v :: Get(needed, v) > 0 <==> SeenValue(b, i, j, TARGET_SUM - v)
  }

  /**
   * The game's hasPlayablePairs: one pass over the revealed cells in row-major
   * order; a cell whose value is needed closes a pair, otherwise its
   * complement becomes needed. It answers true exactly when two distinct
   * revealed cells sum to 10.
   */
  method HasPlayablePairs(b: Board) returns (found: bool)
    ensures found <==> PlayablePair(b)
  {
    var needed: map<int, nat> := map[];
    for i := 0 to |b|
      invariant NeededInv(b, needed, i, 0)
      invariant !PairBefore(b, i, 0)
    {
      var row := b[i];
      for j := 0 to |row|
        invariant NeededInv(b, needed, i, j)
        invariant !PairBefore(b, i, j)
      {
        var cell := row[j];
        if cell.state != Revealed {
          SkipStep(b, i, j);
          continue;
        }
        var complement := TARGET_SUM - cell.value;
        if Get(needed, cell.value) > 0 {
          ClosesPair(b, i, j);
          return true;
        }
        RecordStep(b, needed, i, j);
        needed := needed[complement := Get(needed, complement) + 1];
      }
      RowStep(b, i);
    }
    ScanCoversBoard(b);
    return false;
  }

  /** Passing a cell that is not revealed changes neither what was seen nor the pairs found. */
  lemma SkipStep(b: Board, i: int, j: int)
    requires 0 <= i < |b| && 0 <= j < |b[i]| && b[i][j].state != Revealed
    ensures forall v :: SeenValue(b, i, j + 1, v) <==> SeenValue(b, i, j, v)
    ensures PairBefore(b, i, j + 1) ==> PairBefore(b, i, j)
  {
    forall v | SeenValue(b, i, j + 1, v)
      ensures SeenValue(b, i, j, v)
    {
      var p :| Scanned(b, p, i, j + 1) && At(b, p).value == v;
      assert Scanned(b, p, i, j);
    }
    forall v | SeenValue(b, i, j, v)
      ensures SeenValue(b, i, j + 1, v)
    {
      var p :| Scanned(b, p, i, j) && At(b, p).value == v;
      assert Scanned(b, p, i, j + 1);
    }
    if PairBefore(b, i, j + 1) {
      var p, q :| RevealedPair(b, p, q) && Before(p, i, j + 1) && Before(q, i, j + 1);
      assert Before(p, i, j) && Before(q, i, j);
    }
  }

  /** A revealed cell at (i, j) with value 10 - u for a value u seen before closes a pair. */
  lemma ClosesPair(b: Board, i: int, j: int)
    requires 0 <= i < |b| && 0 <= j < |b[i]| && b[i][j].state == Revealed
    requires SeenValue(b, i, j, TARGET_SUM - b[i][j].value)
    ensures PlayablePair(b)
  {
    var p :| Scanned(b, p, i, j) && At(b, p).value == TARGET_SUM - b[i][j].value;
    assert RevealedPair(b, p, Coord(i, j));
  }

  /**
   * Passing a revealed cell of value x adds x to the values seen, and the
   * only new pairs are those of that cell with a cell of value 10 - x seen
   * before; recording its complement keeps the needed table exact.
   */
  lemma RecordStep(b: Board, needed: map<int, nat>, i: int, j: int)
    requires 0 <= i < |b| && 0 <= j < |b[i]| && b[i][j].state == Revealed
    requires NeededInv(b, needed, i, j)
    ensures NeededInv(b, needed[TARGET_SUM - b[i][j].value := Get(needed, TARGET_SUM - b[i][j].value) + 1], i, j + 1)
    ensures PairBefore(b, i, j + 1) ==> PairBefore(b, i, j) || SeenValue(b, i, j, TARGET_SUM - b[i][j].value)
  {
    var x := b[i][j].value;
    var here := Coord(i, j);
    assert Scanned(b, here, i, j + 1);
    forall v
      ensures SeenValue(b, i, j + 1, v) <==> SeenValue(b, i, j, v) || v == x
    {
      if SeenValue(b, i, j + 1, v) && v != x {
        var p :| Scanned(b, p, i, j + 1) && At(b, p).value == v;
        assert p != here;
        assert Scanned(b, p, i, j);
      }
      if SeenValue(b, i, j, v) {
        var p :| Scanned(b, p, i, j) && At(b, p).value == v;
        assert Scanned(b, p, i, j + 1);
      }
    }
    var updated := needed[TARGET_SUM - x := Get(needed, TARGET_SUM - x) + 1];
    forall v
      ensures Get(updated, v) > 0 <==> SeenValue(b, i, j + 1, TARGET_SUM - v)
    {
      if v != TARGET_SUM - x {
        assert Get(updated, v) == Get(needed, v);
      }
    }
    if PairBefore(b, i, j + 1) && !PairBefore(b, i, j) {
      var p, q :| RevealedPair(b, p, q) && Before(p, i, j + 1) && Before(q, i, j + 1);
      if p == here {
        assert Scanned(b, q, i, j);
      } else if q == here {
        assert Scanned(b, p, i, j);
      } else {
        assert Before(p, i, j) && Before(q, i, j);
      }
    }
  }

  /** The end of row i and the start of row i + 1 are the same point of the scan. */
  lemma RowStep(b: Board, i: int)
    requires 0 <= i < |b|
    ensures forall v :: SeenValue(b, i, |b[i]|, v) <==> SeenValue(b, i + 1, 0, v)
    ensures PairBefore(b, i, |b[i]|) <==> PairBefore(b, i + 1, 0)
  {
    assert forall p :: Has(b, p) ==> (Before(p, i, |b[i]|) <==> Before(p, i + 1, 0));
    forall v | SeenValue(b, i, |b[i]|, v)
      ensures SeenValue(b, i + 1, 0, v)
    {
      var p :| Scanned(b, p, i, |b[i]|) && At(b, p).value == v;
      assert Scanned(b, p, i + 1, 0);
    }
    forall v | SeenValue(b, i + 1, 0, v)
      ensures SeenValue(b, i, |b[i]|, v)
    {
      var p :| Scanned(b, p, i + 1, 0) && At(b, p).value == v;
      assert Scanned(b, p, i, |b[i]|);
    }
    if PairBefore(b, i, |b[i]|) {
      var p, q :| RevealedPair(b, p, q) && Before(p, i, |b[i]|) && Before(q, i, |b[i]|);
      assert Before(p, i + 1, 0) && Before(q, i + 1, 0);
    }
    if PairBefore(b, i + 1, 0) {
      var p, q :| RevealedPair(b, p, q) && Before(p, i + 1, 0) && Before(q, i + 1, 0);
      assert Before(p, i, |b[i]|) && Before(q, i, |b[i]|);
    }
  }

  /** Every cell of b comes before the end of the scan. */
  lemma ScanCoversBoard(b: Board)
    ensures PlayablePair(b) ==> PairBefore(b, |b|, 0)
  {
    if PlayablePair(b) {
      var p, q :| RevealedPair(b, p, q);
      assert Before(p, |b|, 0) && Before(q, |b|, 0);
    }
  }
}
