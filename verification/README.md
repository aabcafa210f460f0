# 2048 board engine in Dafny

This project models the board-transformation engine of a 2048 game written in TypeScript/React. The model covers:

- sliding and merging one row (`moveRowLeft`);
- sliding the whole grid left (`moveLeft`);
- counter-clockwise rotation by 0, 90, 180 or 270 degrees (`rotateMapCounterClockwise`);
- moving in any direction by rotating, sliding left and rotating back (`moveMapIn2048Rule`);
- spawning a tile (`addRandomTile`) and building the starting board (`createBoard`);
- the older copy of the engine in `src/App.tsx`: its rectangularity guard, its own spawn rule, and the key handler that accepts or discards a move.

A grid is a `seq<seq<Option<int>>>`. `None` is an empty cell (`null` in the source) and `Some(v)` is a tile of value `v`. Tile values and scores are unbounded integers.

Each `Math.random()` draw is a `real` in [0, 1) supplied by the caller. The cell index is `Floor(u * n)`, as in the source. The value thresholds are the source's own constants: gameLogic.ts spawns a 2 when the draw is below 0.75, and App.tsx spawns a 2 when it is above 0.5. The score, which the source hands to a React setter, is returned as a value.

Modules, one per file:

| module | file | contents |
|---|---|---|
| `Wrappers` | wrappers.dfy | `Option`, `Result` |
| `Board` | board.dfy | tiles, grids, cell access with the source's out-of-range-reads-as-empty rule, columns, tile multisets and sums |
| `Rotation` | rotation.dfy | `rotateMapCounterClockwise`, its inverse pairs, preservation of cells |
| `Merge` | merge.dfy | `moveRowLeft` as the source's fold, plus an independent reference merge it is proved equal to |
| `GameLogic` | game_logic.dfy | `moveLeft`, the degree maps, `moveMapIn2048Rule`, and what each direction does to rows and columns |
| `Spawn` | spawn.dfy | the empty-cell list, `addRandomTile`, `createBoard` |
| `App` | app.dfy | the App.tsx guard, spawn rule, nested-loop cell scan and key handler |
| `Scenarios` | scenarios.dfy | the three cases of `src/moveLeft.test.ts` as lemmas |

`src/App.tsx:38-129` repeats `rotateMapCounterClockwise`, `moveLeft` and `moveRowLeft`. The rotation differs only by a missing `export`. `moveRowLeft` types the reducer's accumulator parameter where gameLogic.ts passes a type argument, and adds comments. Neither change affects behaviour. They are modelled once, by `Rotation.Rotate`, `GameLogic.MoveLeft` and `Merge.MoveRowLeft`. `App.MoveMapIn2048Rule` calls those same members after its guard.

## Model

| member | source | states |
|---|---|---|
| Merge.MoveRowLeft | src/utils/gameLogic.ts:54-89 | The slid row is the row's tile values, merged in a single left-to-right pass (equal neighbours combine into their double, and a merged tile never merges again), packed to the left and padded with empty cells to the original length. The score is the sum of the values the merges create. `isMoved` holds exactly when the result differs from the input. |
| Merge.FoldMatchesReference | src/utils/gameLogic.ts:59-77 | The reducer's fold over `{lastCell, result}`, flushed through the trailing `filter`, yields the independent head-recursive reference merge `Merged`. The score it accumulates is the reference `MergeScore`. |
| Merge.SlidShape | src/utils/gameLogic.ts:75-82 | The slid row has the input's length, every occupied cell lies left of every empty one, and the occupied values are exactly the merged values in order. |
| Merge.MergedKeepsSum | src/utils/gameLogic.ts:65-67 | Merging keeps the sum of the values, because two equal values become one value of twice the size. |
| Merge.SlideKeepsRowSum | src/utils/gameLogic.ts:54-89 | Sliding a row keeps the sum of its tile values. |
| Merge.SlideOccupiedCount | src/utils/gameLogic.ts:59-77 | The number of occupied cells drops by exactly the number of merges, so it never increases. |
| Merge.PositiveScoreIffMerge | src/utils/gameLogic.ts:65-67 | With positive tile values, the score is non-negative, and it is positive exactly when at least one merge happens. |
| Merge.MergedIdentityIff | src/utils/gameLogic.ts:59-73 | The merge leaves a value sequence unchanged exactly when no two neighbouring values are equal. |
| Merge.NoMoveIff | src/utils/gameLogic.ts:84-88 | A row does not move exactly when its tiles are already packed left with no two equal neighbours. A row that does not move comes back unchanged with score 0. |
| Merge.ScoreImpliesMoved | src/utils/gameLogic.ts:66 | A row that earns a nonzero score has moved, for any integer tile values. |
| Merge.FourEqualTilesMergePairwise | src/utils/gameLogic.ts:63-67 | Four equal tiles `x` become two tiles `2x` followed by two empty cells, never a single `4x`, and score `4x` (score 8 for a row of 2s). |
| GameLogic.MoveLeft | src/utils/gameLogic.ts:39-52 | Every row of the result is that row slid by `moveRowLeft`, and the row count is kept. `isMoved` holds exactly when the result differs from the input. The score is the sum of the rows' reference scores. |
| GameLogic.MoveLeftKeepsShape | src/utils/gameLogic.ts:43-49 | Sliding keeps the row count and the length of every row, on any grid, ragged ones included; so an R-by-C grid slides to an R-by-C grid. |
| GameLogic.MoveLeftKeepsSum | src/utils/gameLogic.ts:39-52 | Sliding keeps the total of all tile values on the grid. |
| GameLogic.MoveLeftScoreNeedsMove | src/utils/gameLogic.ts:42-50 | A grid whose slide earns a nonzero score has moved. |
| GameLogic.MoveLeftNoMoveIff | src/utils/gameLogic.ts:49-50 | The grid does not move exactly when every row is packed left with no two equal neighbouring tiles. |
| GameLogic.RevertUndoesRotate | src/utils/gameLogic.ts:7-19 | For each direction, rotating by `rotateDegreeMap` and then by `revertDegreeMap`, in either order, gives back every rectangular grid that has at least one column or no rows. |
| GameLogic.MoveMapIn2048Rule | src/utils/gameLogic.ts:21-37 | The amount handed to the score setter is never negative: it is 0 when the setter is not called. |
| GameLogic.LeftIsMoveLeft | src/utils/gameLogic.ts:21-37 | Moving left is `moveLeft` itself: same grid, same flag, and the score when positive. |
| GameLogic.MoveKeepsShape | src/utils/gameLogic.ts:21-37 | On a well-shaped grid (rectangular, and either no rows or at least one column), a move in any direction keeps the grid's row count and column count. |
| GameLogic.MovedIffChanged | src/utils/gameLogic.ts:26-36 | A move in any direction reports `isMoved` exactly when the grid it returns differs from the grid it was given. |
| GameLogic.MoveKeepsTileSum | src/utils/gameLogic.ts:21-37 | A move in any direction keeps the total of all tile values on a rectangular grid. |
| GameLogic.ScoreOnlyWhenMoved | src/utils/gameLogic.ts:29-35 | The score setter receives a positive amount only on a move that moved. |
| GameLogic.UpSlidesColumns | src/utils/gameLogic.ts:8-34 | Moving up slides every column towards the top by the row rule. |
| GameLogic.DownSlidesColumns | src/utils/gameLogic.ts:10-34 | Moving down slides every column towards the bottom: the column is read bottom-up, slid, and read top-down again. |
| GameLogic.RightSlidesRows | src/utils/gameLogic.ts:9-34 | Moving right slides every row towards the right: the row is read backwards, slid, and read forwards again. |
| GameLogic.RawMoveScore | src/utils/gameLogic.ts:26-27 | For every direction, the score of the slide a move performs is the sum of the reference merge scores of the lines that direction slides: the rows for left, the rows read backwards for right, the columns top-down for up, and the columns bottom-up for down. |
| GameLogic.MoveScore | src/utils/gameLogic.ts:26-31 | For every direction, the amount handed to the score setter is the sum of the values the merges create along the lines that direction slides, or 0 when that sum is not positive. |
| GameLogic.GridMergeScoreReverse | src/utils/gameLogic.ts:42-47 | Reading the rows in reverse keeps the summed row score. |
| GameLogic.GridMergeScorePermutation | src/utils/gameLogic.ts:42-47 | The summed row score does not depend on the order of the rows: any reordering of the same rows scores the same. |
| Rotation.Rotate | src/utils/boardUtils.ts:3-41 | Degree 0 returns the grid itself. Degrees 90 and 270 give C rows of length R, and degree 180 gives R rows of length C, where R is the row count and C the length of row 0. |
| Rotation.RotateCells | src/utils/boardUtils.ts:13-37 | On a rectangular grid, 90 degrees puts `in[r][C-1-c]` at `out[c][r]`, 180 degrees puts `in[R-1-r][C-1-c]` at `out[r][c]`, and 270 degrees puts `in[R-1-r][c]` at `out[c][r]`. |
| Rotation.Rotate90Then270 | src/utils/boardUtils.ts:13-20 | The 270-degree rotation undoes the 90-degree one on a rectangular grid with at least one column. |
| Rotation.Rotate270Then90 | src/utils/boardUtils.ts:30-37 | The 90-degree rotation undoes the 270-degree one on a rectangular grid with at least one column. |
| Rotation.Rotate180Twice | src/utils/boardUtils.ts:21-29 | The 180-degree rotation is its own inverse on every rectangular grid. |
| Rotation.RotateInverse | src/utils/boardUtils.ts:11-37 | Any two rotations whose quarter turns add up to whole turns undo each other. |
| Rotation.QuarterTurnOfEmptyRows | src/utils/boardUtils.ts:7-20 | A grid with rows but zero columns rotates by 90 or 270 degrees to the empty grid, so neither a 90-degree turn followed by a 270-degree turn nor the reverse order restores it, and neither does the same quarter turn twice. |
| Rotation.RotatePreservesTiles | src/utils/boardUtils.ts:13-37 | Every rotation of a rectangular grid is a permutation of its cells: the multiset of cells, empty ones included, is unchanged. |
| Rotation.RotatePreservesTileSum | src/utils/boardUtils.ts:13-37 | Every rotation of a rectangular grid keeps the total of all tile values. |
| Spawn.EmptyCells | src/utils/gameLogic.ts:102-108 | The empty-cell list holds exactly the in-range positions that hold no tile, strictly increasing in reading order. |
| Spawn.PickIndex | src/utils/gameLogic.ts:111 | `Math.floor(u * n)` of a draw in [0, 1) is a valid index below `n`. |
| Spawn.EveryEmptyCellReachable | src/utils/gameLogic.ts:111 | Every index below `n` is chosen by some draw, so every empty cell can receive the tile. |
| Spawn.NewTileValue | src/utils/gameLogic.ts:119 | The spawned value is 2 or 4, and it is 2 exactly when the draw is below 0.75. |
| Spawn.PlaceTile | src/utils/gameLogic.ts:110-122 | A board with no empty cell is returned unchanged. Otherwise the chosen empty cell gets the value and every other cell and the shape stay as they were. |
| Spawn.AddRandomTile | src/utils/gameLogic.ts:101-123 | A full board does not change. Otherwise exactly one previously empty cell becomes 2 or 4 and nothing else changes. |
| Spawn.PlaceCountsDown | src/utils/gameLogic.ts:101-123 | A spawn leaves exactly one empty cell fewer, or none on a full board. |
| Spawn.PlaceAddsNoOtherValue | src/utils/gameLogic.ts:110-122 | After a spawn the board holds any value other than the spawned one exactly when it held it before. |
| Spawn.PlaceKeepsShapeAndValues | src/utils/gameLogic.ts:117-119 | A spawn of 2 or 4 keeps the board's shape, and a board holding only 2s and 4s still does afterwards. |
| Spawn.CreateBoard | src/utils/gameLogic.ts:91-99 | The starting board is 4 by 4 with exactly 14 empty cells, so it holds exactly two tiles, each a 2 or a 4. |
| App.ValidateMapIsNByM | src/App.tsx:32-35 | True exactly when all rows have the same length. A grid with no rows passes. |
| App.MoveMapIn2048Rule | src/App.tsx:11-29 | Fails exactly on a ragged grid, before rotating or merging anything. On a rectangular grid it returns what gameLogic.ts's version returns. |
| App.AppTileValue | src/App.tsx:194 | App.tsx's spawned value is 2 or 4, and it is 2 exactly when the draw is above 0.5. |
| App.ValueRulesDiffer | src/App.tsx:194 | The two spawn rules disagree: a draw of 0.25 gives 2 in gameLogic.ts and 4 in App.tsx, and a draw of 0.8 gives the opposite. |
| App.CollectEmptyTiles | src/App.tsx:160-174 | The nested `for` loops list the same empty cells in the same reading order as gameLogic.ts's `forEach` scan. |
| App.AddRandomTile | src/App.tsx:159-198 | Its extra guards always pass, so it places the tile where gameLogic.ts would, with App.tsx's value. It is a no-op on a full board, and otherwise exactly one empty cell becomes 2 or 4. |
| App.CreateBoard | src/App.tsx:148-156 | The starting board is 4 by 4 with exactly two tiles, each a 2 or a 4. |
| App.HandleKeyDown | src/App.tsx:207-229 | A key press after game over, or a non-arrow key, leaves the state unchanged. An arrow key fails exactly on a ragged board. Otherwise the score grows by what the move hands to the setter, which is the sum of the values the merges create along the lines the key's direction slides, when that sum is positive. Only a move that moved replaces the board, with a tile spawned into it, and the game-over flag is then set exactly when that board contains 128. A move that did not move keeps the board. A 4-by-4 board always succeeds and stays 4 by 4. |
| Scenarios.MovesAndMerges | src/moveLeft.test.ts:7-25 | The four-row example slides to the expected grid, with the moved flag set and score 20. |
| Scenarios.NothingToMove | src/moveLeft.test.ts:27-39 | Four rows of 2, 4, 8, 16 come back unchanged, unmoved, with score 0. |
| Scenarios.EmptyRowsStay | src/moveLeft.test.ts:41-59 | Three empty rows stay empty and the last row's pair merges, giving the moved flag and score 4. |

## Left out

- React rendering and wiring: the JSX in `src/App.tsx`, `useEffect`/`addEventListener`, and the components under `src/components/`. These are UI, not board logic.
- `src/hooks/useGame.ts` is not part of this model. It is React state glue with a one-level undo.
- `Math.random()` is replaced by caller-supplied real draws in [0, 1). Probabilities are not modelled, and floating-point rounding of `u * n` is not modelled.
- The `setScore` dispatch is modelled as a returned amount (`scoreAdded`, 0 when the setter is not called). `useState` setters are modelled as the returned `GameState`.
- In-place mutation (`addRandomTile` writes into the board it is given) is modelled as a function returning the new grid.
- Tiles that are not integers, `NaN`, and JavaScript number overflow are not modelled. Tile values are unbounded integers.
- The `'Invalid rotation degree'` throw (`src/utils/boardUtils.ts:38-39`) cannot be reached, because `Degree` is a closed datatype.
- App.tsx's `undefined`/`Array.isArray` checks in `addRandomTile` always pass on a typed grid. They are kept as a branch in `App.AddRandomTile` but cannot fail.
- The exception thrown at `src/App.tsx:16` is modelled as a `Failure(MapNotNByM)` result.
- Rotation.RotateInverse: needs a well-shaped grid (rectangular, and either no rows or at least one column). A grid of empty rows rotates by 90 or 270 degrees to the empty grid (`Rotation.QuarterTurnOfEmptyRows`), so it cannot be restored.
- GameLogic.RevertUndoesRotate: needs a well-shaped grid, for the same reason.
- GameLogic.MovedIffChanged: needs a well-shaped grid. For a grid of empty rows moved up or down, `moveLeft` sees no change, yet the grid handed back has no rows.
- GameLogic.UpSlidesColumns, GameLogic.DownSlidesColumns: need a well-shaped grid. GameLogic.RightSlidesRows and GameLogic.MoveKeepsTileSum need a rectangular one. On a ragged grid the rotation pads short rows with empty cells and drops cells beyond row 0's length.
- GameLogic.MoveKeepsShape: needs a well-shaped grid. A grid of empty rows moved up or down comes back with no rows, because the quarter turn reads the column count as 0.
- Rotation.RotatePreservesTileSum, Rotation.RotatePreservesTiles: need a rectangular grid. A ragged grid loses or pads cells: `[[2], [1, 5]]` turned by 180 degrees reads only as many cells per row as row 0 holds, so the 5 is dropped.
- GameLogic.MoveMapIn2048Rule: its own contract only bounds the score amount. Its grid is stated by `GameLogic.LeftIsMoveLeft`, `GameLogic.UpSlidesColumns`, `GameLogic.DownSlidesColumns` and `GameLogic.RightSlidesRows`. Its flag is stated by `GameLogic.MovedIffChanged`. Its score amount is stated by `GameLogic.MoveScore`.
- GameLogic.MoveScore, GameLogic.RawMoveScore: stated for rectangular grids. On a ragged grid the rotation drops or pads cells, so the lines slid are not the grid's own rows or columns.
