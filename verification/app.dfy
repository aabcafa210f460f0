/** The engine as src/App.tsx has it: the same rotation, `moveLeft` and
    `moveRowLeft` (App.tsx:38-129 repeat boardUtils.ts and gameLogic.ts up to
    `export`, type annotations and comments, and are modelled by `Rotation`,
    `Merge` and `GameLogic`), plus a
    rectangularity guard, its own `addRandomTile` with a 50/50 value rule,
    and the key handler that accepts or discards a move. */
module App {
  import opened Wrappers
  import opened Board
  import GameLogic
  import opened Spawn

  /** The error `moveMapIn2048Rule` throws on a ragged grid. */
  datatype AppError = MapNotNByM

  /** `validateMapIsNByM`: every row is as long as row 0 (an empty grid
      passes). */
  function ValidateMapIsNByM(m: Grid): (ok: bool)
    ensures ok <==> Rectangular(m)
  {
    forall i :: 0 <= i < |m| ==> |m[i]| == ColumnCount(m)
  }

  /** App.tsx's `moveMapIn2048Rule`: refuse a ragged grid before rotating or
      merging anything; otherwise move exactly as gameLogic.ts does. */
  function MoveMapIn2048Rule(m: Grid, d: Direction): (r: Result<GameLogic.MoveOutcome, AppError>)
    ensures r.Failure? <==> !Rectangular(m)
    ensures r.Success? ==> r.value == GameLogic.MoveMapIn2048Rule(m, d)
  {
    if !ValidateMapIsNByM(m) then Failure(MapNotNByM)
    else Success(GameLogic.MoveMapIn2048Rule(m, d))
  }

  /** App.tsx's value rule: a draw above 0.5 spawns a 2, any other a 4. */
  const TwoAbove: real := 0.5

  function AppTileValue(u: real): (v: int)
    ensures v == 2 || v == 4
    ensures v == 2 <==> u > TwoAbove
  {
    if u > TwoAbove then 2 else 4
  }

  /** The two value rules disagree: a draw of 0.25 spawns a 2 in gameLogic.ts
      and a 4 in App.tsx, and a draw of 0.8 spawns a 4 and a 2. */
  lemma ValueRulesDiffer()
    ensures NewTileValue(0.25) == 2 && AppTileValue(0.25) == 4
    ensures NewTileValue(0.8) == 4 && AppTileValue(0.8) == 2
  {
  }

  /** The nested `for` loops of App.tsx's `addRandomTile`: they visit the cells
      in the same reading order as gameLogic.ts's `forEach`, so they list the
      same empty cells in the same order. */
  method CollectEmptyTiles(board: Grid) returns (cells: seq<Pos>)
    ensures cells == EmptyCells(board)
  {
    cells := [];
    var row := 0;
    while row < |board|
      invariant 0 <= row <= |board|
      invariant cells == EmptyCellsUpTo(board, row)
    {
      var currentRow := board[row];
      var col := 0;
      while col < |currentRow|
        invariant 0 <= col <= |currentRow|
        invariant cells == EmptyCellsUpTo(board, row) + EmptyInRow(currentRow, row, col)
      {
        if currentRow[col].None? {
          cells := cells + [Pos(row, col)];
        }
        col := col + 1;
      }
      row := row + 1;
    }
  }

  /** App.tsx's `addRandomTile`. Its extra range and emptiness checks always
      pass, so it places a tile exactly where gameLogic.ts's version would,
      with the value App.tsx's own rule gives. */
  method AddRandomTile(board: Grid, pick: real, roll: real) returns (r: Grid)
    requires 0.0 <= pick < 1.0 && 0.0 <= roll < 1.0
    ensures r == PlaceTile(board, pick, AppTileValue(roll))
    ensures |EmptyCells(board)| == 0 ==> r == board
    ensures |EmptyCells(board)| > 0 ==>
              exists p :: p in EmptyCells(board) && (SpawnedAt(board, r, p, 2) || SpawnedAt(board, r, p, 4))
  {
    var emptyTiles := CollectEmptyTiles(board);
    r := board;
    if |emptyTiles| > 0 {
      var p := emptyTiles[PickIndex(pick, |emptyTiles|)];
      assert p in EmptyCells(board);
      if p.row < |board| && p.col < |board[p.row]| && board[p.row][p.col].None? {
        r := SetCell(board, p, Some(AppTileValue(roll)));
      }
    }
  }

  /** App.tsx's `createBoard`, with its own `addRandomTile`. */
  method CreateBoard(pick1: real, roll1: real, pick2: real, roll2: real) returns (b: Grid)
    requires 0.0 <= pick1 < 1.0 && 0.0 <= roll1 < 1.0
    requires 0.0 <= pick2 < 1.0 && 0.0 <= roll2 < 1.0
    ensures HasShape(b, Size, Size)
    ensures |EmptyCells(b)| == Size * Size - 2
    ensures OnlySpawnValues(b)
  {
    var blank := EmptyGrid(Size, Size);
    AllEmptyGrid(blank, Size, Size);
    var once := AddRandomTile(blank, pick1, roll1);
    PlaceCountsDown(blank, pick1, AppTileValue(roll1));
    PlaceKeepsShapeAndValues(blank, pick1, AppTileValue(roll1), Size, Size);
    b := AddRandomTile(once, pick2, roll2);
    PlaceCountsDown(once, pick2, AppTileValue(roll2));
    PlaceKeepsShapeAndValues(once, pick2, AppTileValue(roll2), Size, Size);
  }

  /* ---------------- The key handler ---------------- */

  /** The keys the handler distinguishes. */
  datatype Key = ArrowUp | ArrowDown | ArrowLeft | ArrowRight | OtherKey

  function KeyDirection(k: Key): Option<Direction> {
    match k
    case ArrowUp => Some(Up)
    case ArrowDown => Some(Down)
    case ArrowLeft => Some(Left)
    case ArrowRight => Some(Right)
    case OtherKey => None
  }

  /** The state the component keeps between key presses. */
  datatype GameState = GameState(board: Grid, gameOver: bool, score: int)

  /** The tile value that ends the game. */
  const WinningTile: int := 128

  /** `handleKeyDown`: ignore keys once the game is over; otherwise move in the
      key's direction (any other key leaves the board unmoved). Only a move
      that moved replaces the board, after spawning a tile into it, and sets
      the game-over flag when the new board holds 128. The score grows by
      whatever the move hands to the score setter. */
  method HandleKeyDown(s: GameState, key: Key, pick: real, roll: real)
    returns (r: Result<GameState, AppError>)
    requires 0.0 <= pick < 1.0 && 0.0 <= roll < 1.0
    ensures s.gameOver || KeyDirection(key).None? ==> r == Success(s)
    ensures r.Failure? <==> !s.gameOver && KeyDirection(key).Some? && !Rectangular(s.board)
    ensures r.Success? && !s.gameOver && KeyDirection(key).Some? ==>
              var outcome := GameLogic.MoveMapIn2048Rule(s.board, KeyDirection(key).value);
              && r.value.score == s.score + outcome.scoreAdded
              && (var g := GameLogic.GridMergeScore(GameLogic.SlidLines(s.board, KeyDirection(key).value));
                  r.value.score == s.score + (if g > 0 then g else 0))
              && (outcome.isMoved ==>
                    r.value.board == PlaceTile(outcome.result, pick, AppTileValue(roll))
                    && (r.value.gameOver <==> Contains(r.value.board, WinningTile))
                    && (r.value.gameOver <==> Contains(outcome.result, WinningTile)))
              && (!outcome.isMoved ==> r.value.board == s.board && !r.value.gameOver)
    ensures HasShape(s.board, Size, Size) ==> r.Success? && HasShape(r.value.board, Size, Size)
  {
    if s.gameOver {
      return Success(s);
    }
    var newBoard := s.board;
    var isMoved := false;
    var score := s.score;
    match KeyDirection(key) {
      case None =>
      case Some(d) =>
        var moved := MoveMapIn2048Rule(s.board, d);
        if HasShape(s.board, Size, Size) {
          GameLogic.MoveKeepsShape(s.board, d);
        }
        if moved.Failure? {
          return Failure(moved.error);
        }
        GameLogic.MoveScore(s.board, d);
        newBoard := moved.value.result;
        isMoved := moved.value.isMoved;
        score := score + moved.value.scoreAdded;
    }
    if isMoved {
      PlaceAddsNoOtherValue(newBoard, pick, AppTileValue(roll), WinningTile);
      if HasShape(s.board, Size, Size) {
        PlaceKeepsShapeAndValues(newBoard, pick, AppTileValue(roll), Size, Size);
      }
      newBoard := AddRandomTile(newBoard, pick, roll);
      r := Success(GameState(newBoard, Contains(newBoard, WinningTile), score));
    } else {
      r := Success(GameState(s.board, false, score));
    }
  }
}
