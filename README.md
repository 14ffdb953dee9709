# MineSum10 puzzle engine in Dafny

MineSum10 is played on a 9×9 board. The centre cell is void, the eight cells around it start
revealed, and every other cell starts covered with a value from 1 to 9. The player drags from
one revealed cell to another. Two cells whose values sum to 10 are marked success. After a
short delay they are cleared, and the covered cells of the cross around the last cell (the
pivot) are revealed. Any other sum counts a mistake, and the third mistake fails the game. A
playing game with no pick in progress and no cascade pending is completed once no two distinct
revealed cells sum to 10.

This project models the puzzle engine of `src/pages/MineSum10Page.jsx`:

- `Grid`: cells, the board and its coordinates.
  - Building the fresh board, `CreateBoard`.
  - The ring around the centre, `GetCenterRingCoords`, written as the game's nested loops.
  - The opened-cell count.
- `Shapes`: the cross and the 3×3 square around a pivot, both clipped to the board.
  - `SquareCells` is the game's nested loops, proved equal to the `Square` function.
  - De-duplication of coordinate lists.
  - The choice of reveal shape by path length.
- `Transform`: the pure board transformers.
  - Reverting the selecting cells, and marking listed cells with a state.
  - The explosion that clears the matched cells, and the reveal of covered cells.
  - The deferred cascade of a match, which is the explosion followed by the reveal.
- `Pairs`: completion detection.
  - The game's one-pass scan `HasPlayablePairs`, which keeps a table of needed complements.
  - It is proved to answer true exactly when the brute-force predicate `PlayablePair` holds: two distinct revealed cells sum to 10.
- `Session`: the session state machine as the class `Game`.
  - Its fields are the board, the selection, the current sum, the mistakes, the status, the pointer and resolving flags, the pending cascade (the timeout handle) and the start cell.
  - The handlers are `HandleCellPointerDown`, `HandlePointerUp`, `CompleteCascade` (the deferred cascade), `CompletionEffect` and `HandleRestart`.
  - Each handler keeps the session invariant `Valid()`, which is `Consistent(State())` over a `Snapshot` of the fields, and states the handler's whole new state.
  - Every handler except `HandleRestart`, which puts in a new board, keeps every cleared cell cleared.
  - `ResolveSuccess`, `HandleMistake`, `ResetSelectionState` and `ClearSuccessTimeout` are internal steps called by the handlers. Their contracts give only their field updates.
  - `StartPick` is the accepted pointer-down of `HandleCellPointerDown`. `CancelPick` and `JudgePair` are the two outcomes of `HandlePointerUp`.
  - `CancelPick` keeps `Valid()` itself. `StartPick` and `JudgePair` state their new state as `PickStarted` and `Judged` of the old one, and their handlers keep `Valid()` through the lemmas about those functions.
  - Each state change is proved at the level of values by one lemma (`PickStartConsistent`, `CancelConsistent`, `JudgeConsistent`, `CascadeConsistent`, `CompletedConsistent`, `FreshConsistent`).

Conventions:
- A cell is identified by its position. In the game, a cell's `r`, `c` and `id` always equal its position.
- The void cell's missing value (`null`) is the constant `NO_VALUE`, which is 0.
- The board component reports a pointer-up either over a cell or over none. The model takes the cell's coordinate as `Option<Coord>` and reads the cell's state and value from the current board.

Two behaviours of the code are worth noting:
- `getRevealTargets` returns the orthogonal cross for every path length below five, including two. So every two-cell match also reveals the covered cells of the pivot's cross.
- `applyExplosionClear` clears every target, the void cell included. With the game's two-cell picks the targets are exactly the two selected cells. Those are never void, so this is not reachable from the handlers.

## Model

| member | source | states |
|---|---|---|
| Grid.InBounds | src/pages/MineSum10Page.jsx:74 | A coordinate is on the board exactly when it lies within four rows and four columns of the centre. |
| Grid.CreateCell | src/pages/MineSum10Page.jsx:9-15 | A created cell has the given state. A void cell has no value, and any other cell carries its draw. |
| Grid.InitialState | src/pages/MineSum10Page.jsx:38-43 | The starting state is void exactly at the centre, revealed exactly on the ring, and covered everywhere else. No cell starts selecting, success or cleared. |
| Grid.CreateBoard | src/pages/MineSum10Page.jsx:34-46 | The fresh board is 9×9. The centre is void with no value and is the only void cell. A cell is revealed exactly when it is one of the eight ring cells, and covered otherwise. Every non-void cell carries its random draw. |
| Grid.FreshValuesInRange | src/pages/MineSum10Page.jsx:9-15 | With draws from 1 to 9, as `Math.floor(Math.random() * 9) + 1` produces, every non-void cell of a fresh board has a value from 1 to 9. |
| Grid.CollectBlock | src/pages/MineSum10Page.jsx:19-26 | The nested loops over dr and dc from -1 to 1 push exactly the kept cells of the 3×3 block, in loop order. |
| Grid.GetCenterRingCoords | src/pages/MineSum10Page.jsx:17-28 | The ring list has eight coordinates, and they are exactly the cells around the centre. |
| Grid.RingLength | src/pages/MineSum10Page.jsx:21-23 | Skipping the (0, 0) pass leaves eight of the nine cells of the block. |
| Grid.RingMembers | src/pages/MineSum10Page.jsx:17-28 | The cells left after skipping the centre are exactly the ring. |
| Grid.FilterMembers | src/pages/MineSum10Page.jsx:96-98 | The filter keeps exactly the elements that pass the test. |
| Grid.OpenedCount | src/pages/MineSum10Page.jsx:199-206 | The opened count is at most the number of cells of the flattened board. |
| Grid.OpenedCountBound | src/pages/MineSum10Page.jsx:198-206 | On a 9×9 board with a void centre, at most 80 cells, `totalPlayableCells`, are neither covered nor void. |
| Shapes.CrossCells | src/pages/MineSum10Page.jsx:88-99 | At most five cells. A cell is listed exactly when it is on the board and at Manhattan distance at most 1 from the pivot. All of them lie within one row and one column of the pivot. The pivot is listed whenever it is on the board. |
| Shapes.Square | src/pages/MineSum10Page.jsx:101-113 | At most nine cells. A cell is listed exactly when it is on the board and within one row and one column of the pivot. The pivot is listed whenever it is on the board. |
| Shapes.SquareCells | src/pages/MineSum10Page.jsx:101-113 | The nested loops return exactly `Square(pivot)`. |
| Shapes.Unique | src/pages/MineSum10Page.jsx:77-85 | Filtering against a seen set gives no repeats. It holds exactly the unseen elements, and an input that is repeat-free and avoids the seen set comes back unchanged. |
| Shapes.UniqueCells | src/pages/MineSum10Page.jsx:76-86 | No repeats and the same members as the input. A repeat-free input comes back unchanged. |
| Shapes.GetRevealTargets | src/pages/MineSum10Page.jsx:158-166 | No pivot gives no targets. With a pivot, the targets are the on-board square for paths of five or more cells, and the on-board cross for every shorter path. |
| Transform.RevertSelecting | src/pages/MineSum10Page.jsx:48-53 | Same shape and values. Every selecting cell becomes revealed, every other cell keeps its state, and no selecting cell remains. |
| Transform.RevertSelectingIdempotent | src/pages/MineSum10Page.jsx:48-53 | Reverting twice equals reverting once. |
| Transform.MarkCellsState | src/pages/MineSum10Page.jsx:55-72 | Same shape and values. A cell takes the new state exactly when it is listed, every other cell keeps its state, and an empty list returns the board itself. |
| Transform.ExplosionTargets | src/pages/MineSum10Page.jsx:119-127 | The targets have no repeats. They are the selection's cells, plus the on-board square around the pivot for five or more cells, or the on-board cross for three or four. |
| Transform.ApplyExplosionClear | src/pages/MineSum10Page.jsx:115-141 | Same shape and values. Every target becomes cleared, every other cell keeps its state, and an empty selection returns the board itself. |
| Transform.ExplosionClearOfPair | src/pages/MineSum10Page.jsx:119-127 | A two-cell selection clears exactly its two cells. |
| Transform.ExplosionIsLocal | src/pages/MineSum10Page.jsx:115-141 | An explosion changes only selection cells and on-board cells within one row and one column of the pivot. |
| Transform.RevealCoveredCells | src/pages/MineSum10Page.jsx:143-156 | Same shape and values. A cell changes only when it is both targeted and covered, and then it becomes revealed. Cleared, void, revealed, selecting and success cells are never touched. An empty target list returns the board itself. |
| Transform.RevealCoveredIdempotent | src/pages/MineSum10Page.jsx:143-156 | Revealing the same targets twice equals revealing them once. |
| Transform.Cascade | src/pages/MineSum10Page.jsx:274-279 | The timer's board update keeps the board's shape and every value. Every cleared cell stays cleared, and an empty path leaves the board as it was. |
| Transform.CascadeOfPair | src/pages/MineSum10Page.jsx:273-279 | After a two-cell match, the cascade clears both cells and reveals the covered cells of the pivot's on-board cross. Every other cell and every value is unchanged. |
| Pairs.HasPlayablePairs | src/pages/MineSum10Page.jsx:168-183 | The one-pass scan returns true exactly when two distinct revealed cells have values summing to 10. |
| Pairs.SkipStep | src/pages/MineSum10Page.jsx:172-174 | Passing a cell that is not revealed changes neither the values seen nor the pairs found. |
| Pairs.ClosesPair | src/pages/MineSum10Page.jsx:176-178 | A revealed cell whose value is needed forms a pair with a revealed cell seen before it. |
| Pairs.RecordStep | src/pages/MineSum10Page.jsx:175-179 | Recording the complement keeps the table exact: a value is needed exactly when its complement was seen. The only new pairs are the current cell with a seen complement. |
| Pairs.RowStep | src/pages/MineSum10Page.jsx:170-171 | The end of one row and the start of the next are the same point of the scan. |
| Pairs.ScanCoversBoard | src/pages/MineSum10Page.jsx:182 | Returning false after the full scan is right: every pair lies before the end of the scan. |
| Session.FreshBoardValid | src/pages/MineSum10Page.jsx:34-46 | A fresh board is valid, with no selecting and no success cell. |
| Session.RevertKeepsBoard | src/pages/MineSum10Page.jsx:48-53 | Reverting keeps the board valid and every cleared cell, and leaves no selecting cell. |
| Session.RevertKeepsState | src/pages/MineSum10Page.jsx:48-53 | Reverting leaves the cells of every state other than selecting and revealed as they were. |
| Session.MarkKeepsBoard | src/pages/MineSum10Page.jsx:55-72 | Marking cells that are neither void nor cleared, with a state other than void, keeps the board valid and every cleared cell. |
| Session.MarkMovesState | src/pages/MineSum10Page.jsx:55-72 | Marking adds the listed cells to the new state's cells and removes them from every other state's cells. |
| Session.CascadeKeepsBoard | src/pages/MineSum10Page.jsx:273-279 | The cascade of a confirmed pair keeps the board valid and every cleared cell, and leaves no selecting or success cell. |
| Session.CascadeKeepsValid | src/pages/MineSum10Page.jsx:273-279 | When neither cell of the pair is the centre, the pair's cascade keeps the board valid and every cleared cell. |
| Session.CascadeLeavesNoMark | src/pages/MineSum10Page.jsx:273-279 | When the pair's two cells are the only success cells and no cell is selecting, the cascade leaves no selecting or success cell. |
| Session.JudgedBoard | src/pages/MineSum10Page.jsx:310-325 | Judging a pair keeps the board valid and every cleared cell, and leaves no selecting cell. The two cells are the only success cells exactly on a match. |
| Session.FreshConsistent | src/pages/MineSum10Page.jsx:186-195 | A new session is consistent: playing, no mistakes, an empty selection, nothing pending. |
| Session.PickStartConsistent | src/pages/MineSum10Page.jsx:251-267 | On an unlocked session, `PickStarted` on a revealed cell is consistent and keeps every cleared cell. After it the cell is the only selecting cell and the whole selection. |
| Session.CancelConsistent | src/pages/MineSum10Page.jsx:301-308 | Cancelling a pick leaves a consistent idle session, with no mistake counted and every cleared cell kept. |
| Session.JudgeConsistent | src/pages/MineSum10Page.jsx:310-325 | Judging the pair keeps the session consistent and every cleared cell. It resolves exactly when the sum is 10, and it counts exactly one mistake otherwise. Consistency makes the status failed exactly at three mistakes. |
| Session.CascadeConsistent | src/pages/MineSum10Page.jsx:273-283 | The deferred cascade leaves a consistent idle session. Both matched cells become cleared, the covered cells of the pivot's cross become revealed, and no other cell changes. |
| Session.CompletedConsistent | src/pages/MineSum10Page.jsx:222-231 | Completing an idle playing session keeps it consistent. |
| Session.Game.constructor | src/pages/MineSum10Page.jsx:186-195 | A new game is the fresh session on the drawn board, and it is valid. |
| Session.Game.ClearSuccessTimeout | src/pages/MineSum10Page.jsx:211-216 | After it, no cascade is pending. |
| Session.Game.ResetSelectionState | src/pages/MineSum10Page.jsx:233-239 | The start cell is dropped and the selecting cells revert. The selection is emptied and the sum reset. |
| Session.Game.HandleMistake | src/pages/MineSum10Page.jsx:241-249 | The mistake count goes up by exactly one. The status becomes failed once it reaches 3 and is otherwise unchanged. |
| Session.Game.BoardLocked | src/pages/MineSum10Page.jsx:197 | In a valid session, the board is locked exactly when the game is not playing or a cascade is pending. |
| Session.Game.HandleCellPointerDown | src/pages/MineSum10Page.jsx:251-267 | On a locked board or a cell that is not revealed, nothing changes. Otherwise the new state is `PickStarted` of the old one. The session stays valid and keeps its cleared cells. |
| Session.Game.StartPick | src/pages/MineSum10Page.jsx:256-264 | The new state is `PickStarted` of the old one: no timeout pending, leftover selecting cells reverted, the cell selecting and the whole selection, and the pointer active with a sum of 0. |
| Session.Game.ResolveSuccess | src/pages/MineSum10Page.jsx:269-273 | The board locks, the path's cells become success, and the path's cascade is scheduled. |
| Session.Game.CancelsPick | src/pages/MineSum10Page.jsx:301-305 | A release over no cell cancels. A release that does not cancel is over an on-board cell other than the start cell and the centre. That cell is revealed, and the start cell is selecting. |
| Session.Game.CancelPick | src/pages/MineSum10Page.jsx:301-308 | A cancelled pick reverts its start cell, empties the selection and counts no mistake. The session stays valid. |
| Session.Game.JudgePair | src/pages/MineSum10Page.jsx:310-325 | The new session is `Judged` of the old one. That is either both cells success with the cascade pending, or both cells revealed with one more mistake. |
| Session.Game.HandlePointerUp | src/pages/MineSum10Page.jsx:288-328 | Without an active pick, nothing changes. An end over no cell, over a cell that is not revealed, or over the start cell cancels with no mistake. Any other end is judged, which gives the state of `Judged`. The session stays valid and keeps its cleared cells. |
| Session.Game.CompleteCascade | src/pages/MineSum10Page.jsx:273-283 | The timer callback yields the state of `Cascaded`: the cascade runs on the board, the selection and sum are emptied, and the board unlocks. The session stays valid and keeps its cleared cells. |
| Session.Game.CompletionEffect | src/pages/MineSum10Page.jsx:222-231 | The status becomes completed exactly when no pick or cascade is in flight, the game is playing, and no two distinct revealed cells sum to 10. Otherwise it is unchanged. |
| Session.Game.HandleRestart | src/pages/MineSum10Page.jsx:330-341 | Any pending cascade is cancelled, and the session becomes the fresh session on a new board. |
| Session.Game.OpenedCells | src/pages/MineSum10Page.jsx:197-206 | The opened-cell count of a valid session is at most 80. |
| Session.Game.SumHighlight | src/pages/MineSum10Page.jsx:343 | In a valid session, the sum is highlighted exactly while a confirmed match is resolving. |

## Left out

- Random cell values (`Math.random`): the model takes the draws as a 9×9 grid of integers. Its values are stated to lie from 1 to 9.
- The 120 ms delay is modelled by the `pendingCascade` field and the separate `CompleteCascade` method, not as timing.
  - The unmount cleanup effect that cancels it (lines 218-220) has no counterpart.
  - After the timer fires, the source keeps the old handle. Clearing an expired timer does nothing, and the model drops the handle instead.
- React batching, functional `setState` updates and closures over stale state: each handler is one atomic step on the current fields.
- `openedPercent` and the defeat message use floating-point division and strings, and are not modelled. Only the integer opened count is.
- `sumExpression` and the other display strings, and the JSX output, are not modelled.
- Session.Game.HandlePointerUp: the `!start` branch (lines 296-299) has no counterpart.
  - The invariant ties a recorded start cell to an active pointer, so the branch cannot be taken.
- Session.Game.HandlePointerUp and Session.Game.HandleCellPointerDown read the cell from the current board.
  - The source receives a cell object from the last render, so a cell object older than the board is not modelled.
- Shapes.UniqueCells: keeping the first occurrences in their original order is not stated. The contract states only distinctness, the set of members, and identity on repeat-free input.
- Grid.CreateBoard: the counts — eight revealed and seventy-two covered cells — are not proved as numbers. The contract states which positions are revealed and which are covered, and `GetCenterRingCoords` lists eight ring cells.
- `src/components/MineSum10Board.jsx` (DOM hit-testing, pointer capture, CSS classes) and `src/App.js` (routing) are not part of this model.
