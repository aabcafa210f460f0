/** The board data model shared by every part of the engine: tiles, rows,
    grids (`Map2048` in the source), directions, and the read-only views
    (cells, columns, tile multisets) that the rest of the model states
    its properties with. */
module Board {
  import opened Wrappers

  /** A cell: `None` is an empty cell, `Some(v)` a tile of value `v`. */
  type Tile = Option<int>
  type Row = seq<Tile>
  type Grid = seq<Row>

  /** A swipe direction. */
  datatype Direction = Up | Left | Right | Down

  /** A cell coordinate. */
  datatype Pos = Pos(row: nat, col: nat)

  /** The column count as the source reads it: the length of row 0, or 0 when
      the grid has no rows (`map[0]?.length ?? 0`). */
  function ColumnCount(m: Grid): nat {
    if |m| == 0 then 0 else |m[0]|
  }

  /** `m` has `rows` rows, each of length `cols`. */
  predicate HasShape(m: Grid, rows: nat, cols: nat) {
    |m| == rows && forall i :: 0 <= i < |m| ==> |m[i]| == cols
  }

  /** Every two rows have the same length. */
  predicate Rectangular(m: Grid) {
    forall i, j :: 0 <= i < |m| && 0 <= j < |m| ==> |m[i]| == |m[j]|
  }

  /** A rectangular grid whose rotations can be undone: either it has no
      rows, or its rows are non-empty. */
  predicate WellShaped(m: Grid) {
    Rectangular(m) && (|m| == 0 || |m[0]| > 0)
  }

  /** The cell at `(r, c)`, or `None` when the coordinate lies outside the
      grid (the source's `map[r]?.[c] ?? null`). */
  function At(m: Grid, r: int, c: int): Tile {
    if 0 <= r < |m| && 0 <= c < |m[r]| then m[r][c] else None
  }

  /** Column `c` read from top to bottom. */
  function Column(m: Grid, c: int): Row {
    seq(|m|, r requires 0 <= r < |m| => At(m, r, c))
  }

  /** `s` read backwards. */
  function Reverse<T>(s: seq<T>): (r: seq<T>)
    ensures |r| == |s|
    ensures forall i :: 0 <= i < |s| ==> r[i] == s[|s| - 1 - i]
  {
    if |s| == 0 then [] else Reverse(s[1..]) + [s[0]]
  }

  /** Reading a sequence backwards keeps its elements. */
  lemma {:induction false} ReverseKeepsElements<T>(s: seq<T>)
    ensures multiset(Reverse(s)) == multiset(s)
  {
    if |s| > 0 {
      assert s == [s[0]] + s[1..];
      ReverseKeepsElements(s[1..]);
    }
  }

  /** Replaces the cell at `p`; a coordinate outside the grid changes nothing. */
  function SetCell(m: Grid, p: Pos, t: Tile): (r: Grid)
    ensures |r| == |m|
    ensures forall i :: 0 <= i < |m| ==> |r[i]| == |m[i]|
    ensures forall i, j :: 0 <= i < |m| && 0 <= j < |m[i]| ==>
              r[i][j] == (if Pos(i, j) == p then t else m[i][j])
  {
    if p.row < |m| && p.col < |m[p.row]| then m[p.row := m[p.row][p.col := t]] else m
  }

  /** The grid holds a tile of value `v` somewhere (`map.flat().includes(v)`). */
  predicate Contains(m: Grid, v: int) {
    exists i, j :: 0 <= i < |m| && 0 <= j < |m[i]| && m[i][j] == Some(v)
  }

  /** The multiset of all cells of the grid, empty ones included. */
  function Tiles(m: Grid): multiset<Tile> {
    if |m| == 0 then multiset{} else multiset(m[0]) + Tiles(m[1..])
  }

  /** The value a cell contributes to a sum: its tile value, or 0 when empty. */
  function Value(t: Tile): int {
    if t.Some? then t.value else 0
  }

  /** The sum of the tile values of a multiset of cells. */
  ghost function MultisetSum(t: multiset<Tile>): int
    decreases |t|
  {
    if t == multiset{} then 0
    else
      var x :| x in t;
      Value(x) + MultisetSum(t - multiset{x})
  }

  /** The sum of all tile values on the grid. */
  ghost function TileSum(m: Grid): int {
    MultisetSum(Tiles(m))
  }

  /** The sum of the tile values of one row. */
  function RowSum(row: Row): int {
    if |row| == 0 then 0 else Value(row[0]) + RowSum(row[1..])
  }

  /** The sum of the row sums of a grid. */
  function GridSum(m: Grid): int {
    if |m| == 0 then 0 else RowSum(m[0]) + GridSum(m[1..])
  }

  /** Taking two different cells out of a multiset, in either order. */
  lemma RemoveTwo(t: multiset<Tile>, x: Tile, y: Tile)
    requires x in t && y in t && x != y
    ensures y in t - multiset{x} && |t - multiset{x}| < |t|
    ensures x in t - multiset{y} && |t - multiset{y}| < |t|
    ensures t - multiset{x} - multiset{y} == t - multiset{y} - multiset{x}
  {
    assert (t - multiset{x})[y] == t[y];
    assert (t - multiset{y})[x] == t[x];
  }

  /** Taking any one cell out of a multiset takes its value out of the sum,
      whichever cell the definition happens to pick first. */
  lemma {:induction false} MultisetSumRemove(t: multiset<Tile>, y: Tile)
    requires y in t
    ensures MultisetSum(t) == Value(y) + MultisetSum(t - multiset{y})
    decreases |t|
  {
    var x :| x in t && MultisetSum(t) == Value(x) + MultisetSum(t - multiset{x});
    if x != y {
      RemoveTwo(t, x, y);
      MultisetSumRemove(t - multiset{x}, y);
      MultisetSumRemove(t - multiset{y}, x);
    }
  }

  lemma {:induction false} MultisetSumUnion(a: multiset<Tile>, b: multiset<Tile>)
    ensures MultisetSum(a + b) == MultisetSum(a) + MultisetSum(b)
    decreases |a|
  {
    if a != multiset{} {
      var x :| x in a;
      MultisetSumRemove(a + b, x);
      MultisetSumRemove(a, x);
      assert (a + b) - multiset{x} == (a - multiset{x}) + b;
      MultisetSumUnion(a - multiset{x}, b);
    } else {
      assert a + b == b;
    }
  }

  /** The row sum depends only on which cells the row holds, not their order. */
  lemma {:induction false} RowSumIsMultisetSum(row: Row)
    ensures RowSum(row) == MultisetSum(multiset(row))
  {
    if |row| > 0 {
      assert row == [row[0]] + row[1..];
      assert multiset(row) == multiset{row[0]} + multiset(row[1..]);
      RowSumIsMultisetSum(row[1..]);
      MultisetSumUnion(multiset{row[0]}, multiset(row[1..]));
      MultisetSumRemove(multiset{row[0]}, row[0]);
      assert multiset{row[0]} - multiset{row[0]} == multiset{};
    }
  }

  /** The sum over the grid's multiset of cells is the sum of its row sums. */
  lemma {:induction false} TileSumIsGridSum(m: Grid)
    ensures TileSum(m) == GridSum(m)
  {
    if |m| > 0 {
      RowSumIsMultisetSum(m[0]);
      MultisetSumUnion(multiset(m[0]), Tiles(m[1..]));
      TileSumIsGridSum(m[1..]);
    }
  }
}
