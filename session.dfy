/**
 * One game session of MineSum10: the board, the in-progress selection, the
 * mistake counter and the status, driven by pointer-down and pointer-up on
 * cells, the deferred cascade after a match, the completion check and
 * restart. Each handler is one atomic step. The resolution delay is a pending
 * cascade that only CompleteCascade carries out and only restart cancels.
 */
module Session {
  import opened Wrappers
  import opened Grid
  import opened Shapes
  import opened Transform
  import opened Pairs

  /** The number of mismatches that ends the game. */
  const MAX_MISTAKES: nat := 3

  datatype Status = Playing | Failed | Completed

  /** The cells of b in state s are exactly the positions ps. */
  ghost predicate CellsInState(b: Board, s: CellState, ps: set<Coord>) {
    forall p :: Has(b, p) ==> (At(b, p).state == s <==> p in ps)
  }

  /**
   * A full 9×9 board whose only void cell is the centre, which has no value,
   * and whose other cells all have values from 1 to 9.
   */
  ghost predicate ValidBoard(b: Board) {
    IsGrid(b) &&
    At(b, CENTRE).value == NO_VALUE &&
    forall p :: Has(b, p) ==>
      (At(b, p).state == Void <==> p == CENTRE) &&
      (p != CENTRE ==> 1 <= At(b, p).value <= 9)
  }

  /** Every cell cleared in b0 is still cleared in b1. */
  ghost predicate ClearedKept(b0: Board, b1: Board) {
    forall p :: Has(b0, p) && At(b0, p).state == Cleared ==> Has(b1, p) && At(b1, p).state == Cleared
  }

  /** A fresh board is valid and has no selecting and no success cell. */
  lemma FreshBoardValid(values: seq<seq<int>>)
    requires ValidDraws(values)
    ensures ValidBoard(CreateBoard(values))
    ensures CellsInState(CreateBoard(values), Selecting, {})
    ensures CellsInState(CreateBoard(values), Success, {})
  {
    FreshValuesInRange(values);
  }

  /** Reverting keeps the board valid and every cleared cell, and leaves no selecting cell. */
  lemma RevertKeepsBoard(b: Board)
    requires ValidBoard(b)
    ensures ValidBoard(RevertSelecting(b))
    ensures ClearedKept(b, RevertSelecting(b))
    ensures CellsInState(RevertSelecting(b), Selecting, {})
  {
  }

  /** Reverting does not touch the cells of a state other than selecting and revealed. */
  lemma RevertKeepsState(b: Board, s: CellState, ps: set<Coord>)
    requires CellsInState(b, s, ps) && s != Selecting && s != Revealed
    ensures CellsInState(RevertSelecting(b), s, ps)
  {
  }

  /**
   * Marking on-board cells that are neither void nor cleared with a state
   * other than void keeps the board valid and every cleared cell.
   */
  lemma MarkKeepsBoard(b: Board, cells: seq<Coord>, next: CellState)
    requires ValidBoard(b) && next != Void
    requires forall q :: q in cells ==> Has(b, q) && At(b, q).state != Void && At(b, q).state != Cleared
    ensures ValidBoard(MarkCellsState(b, cells, next))
    ensures ClearedKept(b, MarkCellsState(b, cells, next))
  {
    var r := MarkCellsState(b, cells, next);
    assert CENTRE !in cells;
    forall p | Has(r, p)
      ensures (At(r, p).state == Void <==> p == CENTRE) && (p != CENTRE ==> 1 <= At(r, p).value <= 9)
    {
      assert Has(b, p);
    }
  }

  /** Marking on-board cells adds them to the cells of the new state and takes them from every other state. */
  lemma MarkMovesState(b: Board, cells: seq<Coord>, next: CellState, s: CellState, ps: set<Coord>)
    requires CellsInState(b, s, ps)
    requires forall q :: q in cells ==> Has(b, q)
    ensures CellsInState(MarkCellsState(b, cells, next), s,
                         if s == next then ps + CoordSet(cells) else ps - CoordSet(cells))
  {
    var r := MarkCellsState(b, cells, next);
    forall p | Has(r, p)
      ensures At(r, p).state == s <==> p in (if s == next then ps + CoordSet(cells) else ps - CoordSet(cells))
    {
      assert Has(b, p);
    }
  }

  /**
   * The cascade of a confirmed pair of distinct success cells on a valid
   * board with no selecting cell: the board stays valid, every cleared cell
   * stays cleared and no success or selecting cell is left.
   */
  lemma CascadeKeepsBoard(b: Board, path: seq<Entry>)
    requires ValidBoard(b) && |path| == 2
    requires CellsInState(b, Selecting, {})
    requires CellsInState(b, Success, {path[0].at, path[1].at})
    requires Has(b, path[0].at) && Has(b, path[1].at)
    ensures ValidBoard(Cascade(b, path))
    ensures ClearedKept(b, Cascade(b, path))
    ensures CellsInState(Cascade(b, path), Selecting, {})
    ensures CellsInState(Cascade(b, path), Success, {})
  {
    CascadeOfPair(b, path);
    assert At(b, path[0].at).state == Success && At(b, path[1].at).state == Success;
    CascadeKeepsValid(b, path);
    CascadeLeavesNoMark(b, path);
  }

  /** The pair's cascade keeps a valid board valid and every cleared cell cleared, when neither cell is the centre. */
  lemma CascadeKeepsValid(b: Board, path: seq<Entry>)
    requires ValidBoard(b) && |path| == 2
    requires path[0].at != CENTRE && path[1].at != CENTRE
    ensures ValidBoard(Cascade(b, path))
    ensures ClearedKept(b, Cascade(b, path))
  {
    CascadeOfPair(b, path);
    var r := Cascade(b, path);
    forall p | Has(r, p)
      ensures (At(r, p).state == Void <==> p == CENTRE) && (p != CENTRE ==> 1 <= At(r, p).value <= 9)
    {
      assert Has(b, p);
    }
  }

  /** When the pair's two cells are the only marked cells, its cascade leaves no selecting and no success cell. */
  lemma CascadeLeavesNoMark(b: Board, path: seq<Entry>)
    requires |path| == 2
    requires CellsInState(b, Selecting, {})
    requires CellsInState(b, Success, {path[0].at, path[1].at})
    ensures CellsInState(Cascade(b, path), Selecting, {})
    ensures CellsInState(Cascade(b, path), Success, {})
  {
    CascadeOfPair(b, path);
    var r := Cascade(b, path);
    forall p | Has(r, p)
      ensures At(r, p).state != Selecting && At(r, p).state != Success
    {
      assert Has(b, p);
    }
  }

  /**
   * The board after judging the pair of the selecting start cell and the
   * revealed end cell: the end cell is marked selecting and then both take
   * the outcome state. The board stays valid, cleared cells stay cleared, no
   * cell is selecting, and the two cells are the success cells exactly when
   * the outcome is success.
   */
  lemma JudgedBoard(b: Board, startAt: Coord, endAt: Coord, outcome: CellState)
    requires ValidBoard(b) && (outcome == Success || outcome == Revealed)
    requires CellsInState(b, Selecting, {startAt}) && CellsInState(b, Success, {})
    requires Has(b, startAt) && Has(b, endAt) && endAt != startAt
    requires At(b, endAt).state == Revealed
    ensures var r := MarkCellsState(MarkCellsState(b, [endAt], Selecting), [startAt, endAt], outcome);
      ValidBoard(r) && ClearedKept(b, r) &&
      At(r, startAt).value == At(b, startAt).value && At(r, endAt).value == At(b, endAt).value &&
      CellsInState(r, Selecting, {}) &&
      CellsInState(r, Success, if outcome == Success then {startAt, endAt} else {})
  {
    assert At(b, startAt).state == Selecting;
    MarkKeepsBoard(b, [endAt], Selecting);
    MarkMovesState(b, [endAt], Selecting, Selecting, {startAt});
    MarkMovesState(b, [endAt], Selecting, Success, {});
    var b1 := MarkCellsState(b, [endAt], Selecting);
    assert CoordSet([endAt]) == {endAt};
    assert {startAt} + {endAt} == CoordSet([startAt, endAt]) == {startAt, endAt};
    MarkKeepsBoard(b1, [startAt, endAt], outcome);
    MarkMovesState(b1, [startAt, endAt], outcome, Selecting, {startAt, endAt});
    MarkMovesState(b1, [startAt, endAt], outcome, Success, {});
  }

  /** The fields of a session at one moment. */
  datatype Snapshot = Snapshot(
    board: Board,
    selection: seq<Entry>,
    currentSum: int,
    mistakes: nat,
    status: Status,
    isPointerActive: bool,
    isResolving: bool,
    pendingCascade: Option<seq<Entry>>,
    startCell: Option<Entry>)

  /** The pick in progress: its start entry is on the board, carries its cell's value and is the whole selection. */
  ghost predicate PickInProgress(s: Snapshot) {
    s.startCell.Some? &&
    var start := s.startCell.value;
    Has(s.board, start.at) && At(s.board, start.at).value == start.value &&
    s.selection == [start] && s.currentSum == 0
  }

  /** The confirmed pair awaiting its cascade: two distinct cells of the board whose values sum to 10. */
  ghost predicate MatchPending(s: Snapshot) {
    var sel := s.selection;
    |sel| == 2 && s.pendingCascade == Some(sel) && s.currentSum == TARGET_SUM &&
    sel[0].at != sel[1].at &&
    sel[0].value + sel[1].value == TARGET_SUM &&
    Has(s.board, sel[0].at) && Has(s.board, sel[1].at) &&
    At(s.board, sel[0].at).value == sel[0].value &&
    At(s.board, sel[1].at).value == sel[1].value
  }

  /**
   * The session invariant: a valid board; at most three mistakes, and failed
   * exactly at three; a pick in progress has its start cell as the only
   * selecting cell and as the whole selection; a pending cascade belongs to a
   * confirmed pair of distinct cells summing to 10, which are the only
   * success cells; when nothing is in flight the selection is empty and the
   * sum is 0.
   */
  ghost predicate Consistent(s: Snapshot) {
    ValidBoard(s.board) &&
    s.mistakes <= MAX_MISTAKES && (s.status == Failed <==> s.mistakes == MAX_MISTAKES) &&
    (s.isPointerActive <==> s.startCell.Some?) &&
    (s.isResolving <==> s.pendingCascade.Some?) &&
    (s.isPointerActive ==> s.status == Playing && !s.isResolving && PickInProgress(s)) &&
    (s.isResolving ==> s.status == Playing && MatchPending(s)) &&
    (!s.isPointerActive && !s.isResolving ==> s.selection == [] && s.currentSum == 0) &&
    CellsInState(s.board, Selecting, if s.startCell.Some? then {s.startCell.value.at} else {}) &&
    CellsInState(s.board, Success, if s.isResolving then CoordSet(Positions(s.selection)) else {})
  }

  /** A fresh session on the board drawn from values. */
  function Fresh(values: seq<seq<int>>): Snapshot
    requires IsGrid(values)
  {
    Snapshot(CreateBoard(values), [], 0, 0, Playing, false, false, None, None)
  }

  /** A fresh session is consistent. */
  lemma FreshConsistent(values: seq<seq<int>>)
    requires ValidDraws(values)
    ensures Consistent(Fresh(values))
  {
    FreshBoardValid(values);
  }

  /**
   * The session after a pick starts on the cell at: any leftover selecting
   * cell reverts, the cell is marked selecting and becomes the start cell and
   * the whole selection, and the pointer is active with a sum of 0.
   */
  function PickStarted(s: Snapshot, at: Coord): Snapshot
    requires Has(s.board, at)
  {
    var e := Entry(at, At(s.board, at).value);
    Snapshot(MarkCellsState(RevertSelecting(s.board), [at], Selecting), [e], 0,
             s.mistakes, s.status, true, false, None, Some(e))
  }

  /**
   * Starting a pick on a revealed cell of an unlocked session keeps the
   * session consistent and its cleared cells cleared: the cell becomes the
   * only selecting cell and the whole selection.
   */
  lemma PickStartConsistent(s: Snapshot, at: Coord)
    requires Consistent(s) && InBounds(at) && s.status == Playing && !s.isResolving
    requires At(s.board, at).state == Revealed
    ensures Consistent(PickStarted(s, at))
    ensures ClearedKept(s.board, PickStarted(s, at).board)
    ensures CellsInState(PickStarted(s, at).board, Selecting, {at})
  {
    RevertKeepsBoard(s.board);
    RevertKeepsState(s.board, Success, {});
    var b1 := RevertSelecting(s.board);
    MarkKeepsBoard(b1, [at], Selecting);
    MarkMovesState(b1, [at], Selecting, Selecting, {});
    MarkMovesState(b1, [at], Selecting, Success, {});
    assert CoordSet([at]) == {at};
  }

  /** Cancelling the pick in progress reverts its start cell and leaves a consistent idle session. */
  lemma CancelConsistent(s: Snapshot)
    requires Consistent(s) && s.isPointerActive
    ensures Consistent(Snapshot(RevertSelecting(s.board), [], 0, s.mistakes, s.status, false, false, None, None))
    ensures ClearedKept(s.board, RevertSelecting(s.board))
  {
    RevertKeepsBoard(s.board);
    RevertKeepsState(s.board, Success, {});
  }

  /**
   * The session after judging its pick against the revealed end cell at endAt:
   * the end cell is marked selecting, then both cells become success when
   * their values sum to 10, scheduling the cascade of the pair; otherwise
   * both go back to revealed and one mistake is counted, the third failing
   * the game.
   */
  function Judged(s: Snapshot, endAt: Coord): Snapshot
    requires s.startCell.Some? && Has(s.board, endAt)
  {
    var start := s.startCell.value;
    var e := Entry(endAt, At(s.board, endAt).value);
    var path := [start, e];
    var marked := MarkCellsState(s.board, [endAt], Selecting);
    if start.value + e.value == TARGET_SUM then
      Snapshot(MarkCellsState(marked, Positions(path), Success), path, TARGET_SUM,
               s.mistakes, s.status, false, true, Some(path), None)
    else
      Snapshot(MarkCellsState(marked, Positions(path), Revealed), [], 0,
               s.mistakes + 1, if s.mistakes + 1 >= MAX_MISTAKES then Failed else s.status,
               false, false, None, None)
  }

  /**
   * Judging the pick against a revealed end cell other than the start keeps
   * the session consistent and its cleared cells cleared: a match leaves the
   * pair as the only success cells awaiting the cascade, a mismatch leaves an
   * idle session with exactly one more mistake.
   */
  lemma JudgeConsistent(s: Snapshot, endAt: Coord)
    requires Consistent(s) && s.isPointerActive && InBounds(endAt)
    requires At(s.board, endAt).state == Revealed && endAt != s.startCell.value.at
    ensures Consistent(Judged(s, endAt))
    ensures ClearedKept(s.board, Judged(s, endAt).board)
    ensures Judged(s, endAt).isResolving <==> s.startCell.value.value + At(s.board, endAt).value == TARGET_SUM
    ensures Judged(s, endAt).mistakes == if Judged(s, endAt).isResolving then s.mistakes else s.mistakes + 1
  {
    var start := s.startCell.value;
    var e := Entry(endAt, At(s.board, endAt).value);
    var matched := start.value + e.value == TARGET_SUM;
    JudgedBoard(s.board, start.at, endAt, if matched then Success else Revealed);
    assert Positions([start, e]) == [start.at, endAt];
    assert CoordSet([start.at, endAt]) == {start.at, endAt};
  }

  /**
   * The session after its pending cascade: the board takes the cascade of
   * the selection, and the selection and sum are emptied, the board unlocked
   * and the pending cascade dropped.
   */
  function Cascaded(s: Snapshot): Snapshot {
    Snapshot(Cascade(s.board, s.selection), [], 0, s.mistakes, s.status,
             s.isPointerActive, false, None, s.startCell)
  }

  /**
   * Carrying out the pending cascade of a consistent session leaves a
   * consistent idle session that keeps its cleared cells: the two matched
   * cells become cleared, the covered cells of the pivot's cross become
   * revealed and no other cell changes.
   */
  lemma CascadeConsistent(s: Snapshot)
    requires Consistent(s) && s.isResolving
    ensures Consistent(Cascaded(s))
    ensures ClearedKept(s.board, Cascaded(s).board)
    ensures forall p :: Has(s.board, p) ==>
      At(Cascaded(s).board, p).state ==
        (if p == s.selection[0].at || p == s.selection[1].at then Cleared
         else if InBounds(p) && InCross(s.selection[1].at, p) && At(s.board, p).state == Covered then Revealed
         else At(s.board, p).state)
  {
    var path := s.selection;
    assert Positions(path) == [path[0].at, path[1].at];
    assert CoordSet([path[0].at, path[1].at]) == {path[0].at, path[1].at};
    CascadeKeepsBoard(s.board, path);
    CascadeOfPair(s.board, path);
  }

  /** Completing an idle playing session keeps it consistent. */
  lemma CompletedConsistent(s: Snapshot)
    requires Consistent(s) && !s.isPointerActive && !s.isResolving && s.status == Playing
    ensures Consistent(s.(status := Completed))
  {
  }

  class Game {
    var board: Board
    var selection: seq<Entry>
    var currentSum: int
    var mistakes: nat
    var status: Status
    var isPointerActive: bool
    var isResolving: bool
    /** The scheduled cascade of a confirmed match (the pending timeout). */
    var pendingCascade: Option<seq<Entry>>
    /** The start entry of the pick in progress. */
    var startCell: Option<Entry>

    /** The session's fields as a value. */
    function State(): Snapshot
      reads this
    {
      Snapshot(board, selection, currentSum, mistakes, status, isPointerActive, isResolving, pendingCascade, startCell)
    }

    ghost predicate Valid()
      reads this
    {
      Consistent(State())
    }

    /** The board takes no input once the game is over or while a match resolves. */
    function BoardLocked(): (locked: bool)
      reads this
      ensures Valid() ==> (locked <==> status != Playing || pendingCascade.Some?)
    {
      status == Failed || status == Completed || isResolving
    }

    /** A new session on a fresh board drawn from values. */
    constructor (values: seq<seq<int>>)
      requires ValidDraws(values)
      ensures Valid()
      ensures State() == Fresh(values)
    {
      board := CreateBoard(values);
      selection := [];
      currentSum := 0;
      mistakes := 0;
      status := Playing;
      isPointerActive := false;
      isResolving := false;
      pendingCascade := None;
      startCell := None;
      FreshConsistent(values);
    }

    /** Cancel the pending cascade, if any. */
    method ClearSuccessTimeout()
      modifies this`pendingCascade
      ensures pendingCascade == None
    {
      if pendingCascade.Some? {
        pendingCascade := None;
      }
    }

    /** Abandon the pick: the selecting cells go back to revealed and the selection empties. */
    method ResetSelectionState()
      modifies this`startCell, this`board, this`selection, this`currentSum
      ensures startCell == None && board == RevertSelecting(old(board))
      ensures selection == [] && currentSum == 0
    {
      startCell := None;
      board := RevertSelecting(board);
      selection := [];
      currentSum := 0;
    }

    /** One more mistake; the third one fails the game. */
    method HandleMistake()
      modifies this`mistakes, this`status
      ensures mistakes == old(mistakes) + 1
      ensures status == (if mistakes >= MAX_MISTAKES then Failed else old(status))
    {
      mistakes := mistakes + 1;
      if mistakes >= MAX_MISTAKES {
        status := Failed;
      }
    }

    /**
     * Pointer-down on the cell at: ignored while the board is locked or when
     * the cell is not revealed; otherwise a new pick starts there.
     */
    method HandleCellPointerDown(at: Coord)
      requires Valid() && InBounds(at)
      modifies this
      ensures Valid()
      ensures ClearedKept(old(board), board)
      ensures old(BoardLocked()) || At(old(board), at).state != Revealed ==> unchanged(this)
      ensures !old(BoardLocked()) && At(old(board), at).state == Revealed ==>
        State() == PickStarted(old(State()), at)
    {
      var cell := At(board, at);
      if BoardLocked() || cell.state != Revealed {
        return;
      }
      ghost var s0 := State();
      StartPick(at);
      PickStartConsistent(s0, at);
    }

    /**
     * Start a pick on the cell at: any pending timeout is cleared, leftover
     * selecting cells revert, and the cell becomes the start of the pick.
     */
    method StartPick(at: Coord)
      requires !isResolving && Has(board, at)
      modifies this
      ensures State() == PickStarted(old(State()), at)
    {
      var entry := Entry(at, At(board, at).value);
      var marked := MarkCellsState(RevertSelecting(board), [at], Selecting);
      ClearSuccessTimeout();
      selection := [entry];
      currentSum := 0;
      board := marked;
      isPointerActive := true;
      startCell := Some(entry);
    }

    /** The pick ends without a pair: no end cell, an end cell that is not revealed, or the start cell itself. */
    function CancelsPick(end: Option<Coord>): (cancels: bool)
      reads this
      requires Valid() && isPointerActive
      requires end.Some? ==> InBounds(end.value)
      ensures end.None? ==> cancels
      ensures !cancels ==>
                end.Some? && end.value != startCell.value.at && end.value != CENTRE &&
                At(board, startCell.value.at).state == Selecting && At(board, end.value).state == Revealed
    {
      end.None? || At(board, end.value).state != Revealed || end.value == startCell.value.at
    }

    /** Confirm a matching pair: both cells show success and the cascade is scheduled. */
    method ResolveSuccess(path: seq<Entry>)
      modifies this`isResolving, this`board, this`pendingCascade
      ensures isResolving && pendingCascade == Some(path)
      ensures board == MarkCellsState(old(board), Positions(path), Success)
    {
      isResolving := true;
      board := MarkCellsState(board, Positions(path), Success);
      pendingCascade := Some(path);
    }

    /** Abandon the pick in progress: its start cell goes back to revealed, with no mistake. */
    method CancelPick()
      requires Valid() && isPointerActive
      modifies this`isPointerActive, this`startCell, this`board, this`selection, this`currentSum
      ensures Valid()
      ensures ClearedKept(old(board), board)
      ensures board == RevertSelecting(old(board)) && selection == [] && currentSum == 0
      ensures !isPointerActive && startCell == None
    {
      CancelConsistent(State());
      isPointerActive := false;
      ResetSelectionState();
    }

    /**
     * Judge the pair of the start cell and the revealed cell at endAt: the end
     * cell is marked selecting, then a sum of 10 marks both cells success and
     * schedules the cascade, and any other sum reverts both to revealed and
     * counts one mistake.
     */
    method JudgePair(endAt: Coord)
      requires startCell.Some? && !isResolving && pendingCascade.None? && Has(board, endAt)
      modifies this
      ensures State() == Judged(old(State()), endAt)
    {
      var start := startCell.value;
      var endEntry := Entry(endAt, At(board, endAt).value);
      var path := [start, endEntry];
      var marked := MarkCellsState(board, [endAt], Selecting);
      var newSum := start.value + endEntry.value;
      isPointerActive := false;
      startCell := None;
      if newSum == TARGET_SUM {
        board := marked;
        selection := path;
        currentSum := newSum;
        ResolveSuccess(path);
      } else {
        board := MarkCellsState(marked, Positions(path), Revealed);
        selection := [];
        currentSum := 0;
        HandleMistake();
      }
    }

    /**
     * Pointer-up over end (None when the release is over no cell). Outside a
     * pick nothing happens. A release over no cell, over a cell that is not
     * revealed, or over the start cell itself cancels the pick with no
     * mistake. Otherwise the pair of start and end cell is judged.
     */
    method HandlePointerUp(end: Option<Coord>)
      requires Valid() && (end.Some? ==> InBounds(end.value))
      modifies this
      ensures Valid()
      ensures ClearedKept(old(board), board)
      ensures !old(isPointerActive) ==> unchanged(this)
      ensures old(isPointerActive) && old(CancelsPick(end)) ==>
        board == RevertSelecting(old(board)) && selection == [] && currentSum == 0 &&
        !isPointerActive && startCell == None && !isResolving && pendingCascade == None &&
        mistakes == old(mistakes) && status == old(status)
      ensures old(isPointerActive) && !old(CancelsPick(end)) ==> State() == Judged(old(State()), end.value)
    {
      if !isPointerActive {
        return;
      }
      var start := startCell.value;
      if end.None? || At(board, end.value).state != Revealed || end.value == start.at {
        CancelPick();
        return;
      }
      ghost var s0 := State();
      JudgePair(end.value);
      JudgeConsistent(s0, end.value);
    }

    /**
     * The deferred cascade of the confirmed pair: its two cells are cleared,
     * the covered cells of the pivot's cross are revealed, nothing else on the
     * board changes, and the selection empties and unlocks the board.
     */
    method CompleteCascade()
      requires Valid() && pendingCascade.Some?
      modifies this
      ensures Valid()
      ensures ClearedKept(old(board), board)
      ensures State() == Cascaded(old(State()))
    {
      ghost var s0 := State();
      CascadeConsistent(s0);
      var path := pendingCascade.value;
      var clearedBoard := ApplyExplosionClear(board, path);
      var pivot := path[|path| - 1].at;
      var revealTargets := GetRevealTargets(|path|, Some(pivot));
      board := RevealCoveredCells(clearedBoard, revealTargets);
      selection := [];
      currentSum := 0;
      isResolving := false;
      pendingCascade := None;
    }

    /**
     * The completion check run after every change: with no pick and no
     * cascade in flight, a playing game whose board has no playable pair
     * becomes completed.
     */
    method CompletionEffect()
      requires Valid()
      modifies this`status
      ensures Valid()
      ensures status == (if !isPointerActive && !isResolving && old(status) == Playing && !PlayablePair(board)
                         then Completed else old(status))
    {
      var hasPairsAvailable := HasPlayablePairs(board);
      if !isPointerActive && !isResolving && status == Playing && !hasPairsAvailable {
        CompletedConsistent(State());
        status := Completed;
      }
    }

    /** Restart: cancel any pending cascade and start over on a fresh board. */
    method HandleRestart(values: seq<seq<int>>)
      requires ValidDraws(values)
      modifies this
      ensures Valid()
      ensures State() == Fresh(values)
    {
      ClearSuccessTimeout();
      startCell := None;
      board := CreateBoard(values);
      selection := [];
      currentSum := 0;
      mistakes := 0;
      status := Playing;
      isPointerActive := false;
      isResolving := false;
      FreshConsistent(values);
    }

    /** The opened-cell count shown on the scoreboard: at most the 80 non-void cells. */
    function OpenedCells(): (n: nat)
      reads this
      requires Valid()
      ensures n <= BOARD_SIZE * BOARD_SIZE - 1
    {
      OpenedCountBound(board);
      OpenedCount(board)
    }

    /**
     * The sum is highlighted while a two-cell selection sums to 10; in a
     * consistent session that is exactly while a confirmed match is resolving.
     */
    function SumHighlight(): (highlighted: bool)
      reads this
      ensures Valid() ==> (highlighted <==> isResolving)
    {
      |selection| == 2 && currentSum == TARGET_SUM
    }
  }
}
