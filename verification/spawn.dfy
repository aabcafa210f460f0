/** Tile spawning of src/utils/gameLogic.ts (`addRandomTile`, `createBoard`).
    The source draws from `Math.random()` twice per spawn; here each draw is a
    real number in [0, 1) supplied by the caller. */
module Spawn {
  import opened Wrappers
  import opened Board

  /* ---------------- Enumerating the empty cells ---------------- */

  /** `p` comes before `q` in reading order: by row, then by column. */
  predicate Before(p: Pos, q: Pos) {
    p.row < q.row || (p.row == q.row && p.col < q.col)
  }

  /** The positions are strictly increasing in reading order. */
  predicate InReadingOrder(s: seq<Pos>) {
    forall a, b :: 0 <= a < b < |s| ==> Before(s[a], s[b])
  }

  /** The empty cells among the first `n` cells of `row`, which is row `r` of
      its grid, from left to right. */
  function EmptyInRow(row: Row, r: nat, n: nat): seq<Pos>
    requires n <= |row|
  {
    if n == 0 then []
    else EmptyInRow(row, r, n - 1) + (if row[n - 1].None? then [Pos(r, n - 1)] else [])
  }

  /** The empty cells of the first `k` rows of `m`, row after row. */
  function EmptyCellsUpTo(m: Grid, k: nat): seq<Pos>
    requires k <= |m|
  {
    if k == 0 then [] else EmptyCellsUpTo(m, k - 1) + EmptyInRow(m[k - 1], k - 1, |m[k - 1]|)
  }

  lemma {:induction false} EmptyInRowSpec(row: Row, r: nat, n: nat)
    requires n <= |row|
    ensures forall p :: p in EmptyInRow(row, r, n) <==> p.row == r && p.col < n && row[p.col].None?
    ensures InReadingOrder(EmptyInRow(row, r, n))
  {
    if n > 0 {
      EmptyInRowSpec(row, r, n - 1);
    }
  }

  lemma {:induction false} EmptyCellsUpToSpec(m: Grid, k: nat)
    requires k <= |m|
    ensures forall p :: p in EmptyCellsUpTo(m, k) <==>
              p.row < k && p.col < |m[p.row]| && m[p.row][p.col].None?
    ensures InReadingOrder(EmptyCellsUpTo(m, k))
  {
    if k > 0 {
      EmptyCellsUpToSpec(m, k - 1);
      var before := EmptyCellsUpTo(m, k - 1);
      var last := EmptyInRow(m[k - 1], k - 1, |m[k - 1]|);
      EmptyInRowSpec(m[k - 1], k - 1, |m[k - 1]|);
      forall a, b | 0 <= a < |before| && 0 <= b < |last|
        ensures Before(before[a], last[b])
      {
        assert before[a] in before && last[b] in last;
      }
    }
  }

  /** The empty cells of the grid in reading order (the source's `emptyTiles`):
      exactly the in-range positions holding no tile, each once. */
  function EmptyCells(m: Grid): (s: seq<Pos>)
    ensures forall p :: p in s <==> p.row < |m| && p.col < |m[p.row]| && m[p.row][p.col].None?
    ensures InReadingOrder(s)
  {
    EmptyCellsUpToSpec(m, |m|);
    EmptyCellsUpTo(m, |m|)
  }

  /* ---------------- Spawning one tile ---------------- */

  /** The chance of a 2 in gameLogic.ts; a 4 appears otherwise. */
  const TwoBelow: real := 0.75

  /** `Math.floor(u * n)`: the index the draw `u` selects among `n` items. */
  function PickIndex(u: real, n: nat): (k: nat)
    requires 0.0 <= u < 1.0 && n > 0
    ensures k < n
  {
    var x := u * n as real;
    assert x < n as real;
    x.Floor
  }

  /** gameLogic.ts's value rule: a draw below 0.75 spawns a 2, any other a 4. */
  function NewTileValue(u: real): (v: int)
    ensures v == 2 || v == 4
    ensures v == 2 <==> u < TwoBelow
  {
    if u < TwoBelow then 2 else 4
  }

  /** Writes `value` into the empty cell the draw `pick` selects; a grid with
      no empty cell is returned unchanged. */
  function PlaceTile(m: Grid, pick: real, value: int): (r: Grid)
    requires 0.0 <= pick < 1.0
    ensures |EmptyCells(m)| == 0 ==> r == m
    ensures |EmptyCells(m)| > 0 ==> SpawnedAt(m, r, EmptyCells(m)[PickIndex(pick, |EmptyCells(m)|)], value)
  {
    var empties := EmptyCells(m);
    if |empties| == 0 then m
    else
      var p := empties[PickIndex(pick, |empties|)];
      assert p in empties;
      SetCell(m, p, Some(value))
  }

  /** `r` is `m` with the empty cell at `p` set to `value` and every other
      cell, and the shape, unchanged. */
  predicate SpawnedAt(m: Grid, r: Grid, p: Pos, value: int) {
    && p.row < |m| && p.col < |m[p.row]| && m[p.row][p.col].None?
    && |r| == |m|
    && (forall i :: 0 <= i < |m| ==> |r[i]| == |m[i]|)
    && r[p.row][p.col] == Some(value)
    && forall i, j :: 0 <= i < |m| && 0 <= j < |m[i]| && Pos(i, j) != p ==> r[i][j] == m[i][j]
  }

  /** `addRandomTile` of gameLogic.ts. The first draw picks the empty cell,
      the second the value. */
  function AddRandomTile(m: Grid, pick: real, roll: real): (r: Grid)
    requires 0.0 <= pick < 1.0 && 0.0 <= roll < 1.0
    ensures |EmptyCells(m)| == 0 ==> r == m
    ensures |EmptyCells(m)| > 0 ==>
              exists p :: p in EmptyCells(m) && (SpawnedAt(m, r, p, 2) || SpawnedAt(m, r, p, 4))
  {
    PlaceTile(m, pick, NewTileValue(roll))
  }

  /** Every empty cell can be chosen: for each index below the number of empty
      cells some draw selects it. */
  lemma EveryEmptyCellReachable(n: nat, k: nat)
    requires k < n
    ensures PickIndex(k as real / n as real, n) == k
  {
    var u := k as real / n as real;
    assert u * n as real == k as real;
  }

  /** A spawn adds no value but its own: for any other value `w`, the grid
      holds `w` afterwards exactly when it held it before. */
  lemma PlaceAddsNoOtherValue(m: Grid, pick: real, value: int, w: int)
    requires 0.0 <= pick < 1.0 && w != value
    ensures Contains(PlaceTile(m, pick, value), w) <==> Contains(m, w)
  {
    var r := PlaceTile(m, pick, value);
    var empties := EmptyCells(m);
    if |empties| > 0 {
      var p := empties[PickIndex(pick, |empties|)];
      assert SpawnedAt(m, r, p, value);
      if Contains(r, w) {
        var i, j :| 0 <= i < |r| && 0 <= j < |r[i]| && r[i][j] == Some(w);
        assert Pos(i, j) != p;
        assert m[i][j] == Some(w);
      }
      if Contains(m, w) {
        var i, j :| 0 <= i < |m| && 0 <= j < |m[i]| && m[i][j] == Some(w);
        assert Pos(i, j) != p;
        assert r[i][j] == Some(w);
      }
    }
  }

  /* ---------------- Counting empty cells ---------------- */

  lemma {:induction false} EmptyInRowAfterFill(row: Row, r: nat, n: nat, c: nat, t: Tile)
    requires n <= |row| && c < |row| && row[c].None? && t.Some?
    ensures |EmptyInRow(row[c := t], r, n)| == |EmptyInRow(row, r, n)| - (if c < n then 1 else 0)
  {
    if n > 0 {
      EmptyInRowAfterFill(row, r, n - 1, c, t);
    }
  }

  lemma {:induction false} EmptyCellsUpToAfterFill(m: Grid, k: nat, p: Pos, t: Tile)
    requires k <= |m| && p.row < |m| && p.col < |m[p.row]| && m[p.row][p.col].None? && t.Some?
    ensures |EmptyCellsUpTo(SetCell(m, p, t), k)| == |EmptyCellsUpTo(m, k)| - (if p.row < k then 1 else 0)
  {
    if k > 0 {
      EmptyCellsUpToAfterFill(m, k - 1, p, t);
      var r := SetCell(m, p, t);
      if k - 1 == p.row {
        assert r[k - 1] == m[k - 1][p.col := t];
        EmptyInRowAfterFill(m[k - 1], k - 1, |m[k - 1]|, p.col, t);
      } else {
        assert r[k - 1] == m[k - 1];
      }
    }
  }

  /** Filling an empty cell leaves one empty cell fewer. */
  lemma FillingRemovesOneEmptyCell(m: Grid, p: Pos, t: Tile)
    requires p.row < |m| && p.col < |m[p.row]| && m[p.row][p.col].None? && t.Some?
    ensures |EmptyCells(SetCell(m, p, t))| == |EmptyCells(m)| - 1
  {
    EmptyCellsUpToAfterFill(m, |m|, p, t);
    assert EmptyCells(SetCell(m, p, t)) == EmptyCellsUpTo(SetCell(m, p, t), |m|);
  }

  /** A spawn on a grid with an empty cell leaves exactly one empty cell fewer;
      on a full grid it leaves the grid as it was. */
  lemma PlaceCountsDown(m: Grid, pick: real, value: int)
    requires 0.0 <= pick < 1.0
    ensures |EmptyCells(PlaceTile(m, pick, value))| ==
            if |EmptyCells(m)| == 0 then 0 else |EmptyCells(m)| - 1
  {
    var empties := EmptyCells(m);
    if |empties| > 0 {
      var p := empties[PickIndex(pick, |empties|)];
      assert p in empties;
      FillingRemovesOneEmptyCell(m, p, Some(value));
    }
  }

  /* ---------------- The starting board ---------------- */

  /** The side length of the board `createBoard` makes. */
  const Size: nat := 4

  /** A `rows`-by-`cols` grid of empty cells. */
  function EmptyGrid(rows: nat, cols: nat): (m: Grid)
    ensures HasShape(m, rows, cols)
    ensures forall i, j :: 0 <= i < rows && 0 <= j < cols ==> m[i][j].None?
  {
    seq(rows, _ => seq(cols, _ => None))
  }

  lemma {:induction false} AllEmptyRow(row: Row, r: nat, n: nat)
    requires n <= |row| && forall j :: 0 <= j < |row| ==> row[j].None?
    ensures |EmptyInRow(row, r, n)| == n
  {
    if n > 0 {
      AllEmptyRow(row, r, n - 1);
    }
  }

  lemma {:induction false} AllEmptyGrid(m: Grid, k: nat, cols: nat)
    requires k <= |m| && HasShape(m, |m|, cols)
    requires forall i, j :: 0 <= i < |m| && 0 <= j < cols ==> m[i][j].None?
    ensures |EmptyCellsUpTo(m, k)| == k * cols
  {
    if k > 0 {
      AllEmptyGrid(m, k - 1, cols);
      AllEmptyRow(m[k - 1], k - 1, cols);
    }
  }

  /** Every tile on the grid is a 2 or a 4. */
  predicate OnlySpawnValues(m: Grid) {
    forall i, j :: 0 <= i < |m| && 0 <= j < |m[i]| && m[i][j].Some? ==>
      m[i][j] == Some(2) || m[i][j] == Some(4)
  }

  /** A spawn keeps the shape, and adds only a 2 or a 4. */
  lemma PlaceKeepsShapeAndValues(m: Grid, pick: real, value: int, rows: nat, cols: nat)
    requires 0.0 <= pick < 1.0 && (value == 2 || value == 4)
    requires HasShape(m, rows, cols)
    ensures HasShape(PlaceTile(m, pick, value), rows, cols)
    ensures OnlySpawnValues(m) ==> OnlySpawnValues(PlaceTile(m, pick, value))
  {
  }

  /** `createBoard`: an empty 4-by-4 grid with two spawned tiles. The result
      has 14 empty cells, so exactly two tiles, and both are 2 or 4. */
  function CreateBoard(pick1: real, roll1: real, pick2: real, roll2: real): (b: Grid)
    requires 0.0 <= pick1 < 1.0 && 0.0 <= roll1 < 1.0
    requires 0.0 <= pick2 < 1.0 && 0.0 <= roll2 < 1.0
    ensures HasShape(b, Size, Size)
    ensures |EmptyCells(b)| == Size * Size - 2
    ensures OnlySpawnValues(b)
  {
    var blank := EmptyGrid(Size, Size);
    var once := AddRandomTile(blank, pick1, roll1);
    AllEmptyGrid(blank, Size, Size);
    PlaceCountsDown(blank, pick1, NewTileValue(roll1));
    PlaceKeepsShapeAndValues(blank, pick1, NewTileValue(roll1), Size, Size);
    PlaceCountsDown(once, pick2, NewTileValue(roll2));
    PlaceKeepsShapeAndValues(once, pick2, NewTileValue(roll2), Size, Size);
    AddRandomTile(once, pick2, roll2)
  }
}
