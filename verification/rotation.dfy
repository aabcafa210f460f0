/** Counter-clockwise rotation of a grid (`rotateMapCounterClockwise` in
    src/utils/boardUtils.ts, repeated in src/App.tsx without the `export`). */
module Rotation {
  import opened Board

  /** The rotation amounts the source accepts. The source throws on any other
      degree; with a closed type that branch cannot be reached. */
  datatype Degree = D0 | D90 | D180 | D270

  /** Quarter turns counter-clockwise. */
  function Turns(d: Degree): (n: nat)
    ensures n < 4
  {
    match d
    case D0 => 0
    case D90 => 1
    case D180 => 2
    case D270 => 3
  }

  /** Rotates `m` counter-clockwise by `d`. Row count `R` is `|m|`, column
      count `C` the length of row 0. Degree 0 hands back the grid itself. */
  function Rotate(m: Grid, d: Degree): (r: Grid)
    ensures d == D0 ==> r == m
    ensures d == D90 || d == D270 ==> HasShape(r, ColumnCount(m), |m|)
    ensures d == D180 ==> HasShape(r, |m|, ColumnCount(m))
  {
    match d
    case D0 => m
    case D90 => RotateQuarter(m)
    case D180 => RotateHalf(m)
    case D270 => RotateThreeQuarters(m)
  }

  /** The 90-degree case: a C-by-R grid whose row `c` is column `C-1-c` of
      `m`; a cell missing from a ragged row reads as empty. */
  function RotateQuarter(m: Grid): (r: Grid)
    ensures HasShape(r, ColumnCount(m), |m|)
    ensures forall c, i :: 0 <= c < ColumnCount(m) && 0 <= i < |m| ==>
              r[c][i] == At(m, i, ColumnCount(m) - 1 - c)
  {
    var rows, cols := |m|, ColumnCount(m);
    seq(cols, c requires 0 <= c < cols =>
      seq(rows, i requires 0 <= i < rows => At(m, i, cols - c - 1)))
  }

  /** The 180-degree case: an R-by-C grid read from the opposite corner. */
  function RotateHalf(m: Grid): (r: Grid)
    ensures HasShape(r, |m|, ColumnCount(m))
    ensures forall i, c :: 0 <= i < |m| && 0 <= c < ColumnCount(m) ==>
              r[i][c] == At(m, |m| - 1 - i, ColumnCount(m) - 1 - c)
  {
    var rows, cols := |m|, ColumnCount(m);
    seq(rows, i requires 0 <= i < rows =>
      seq(cols, c requires 0 <= c < cols => At(m, rows - i - 1, cols - c - 1)))
  }

  /** The 270-degree case: a C-by-R grid whose row `c` is column `c` of `m`
      read from the bottom up. */
  function RotateThreeQuarters(m: Grid): (r: Grid)
    ensures HasShape(r, ColumnCount(m), |m|)
    ensures forall c, i :: 0 <= c < ColumnCount(m) && 0 <= i < |m| ==>
              r[c][i] == At(m, |m| - 1 - i, c)
  {
    var rows, cols := |m|, ColumnCount(m);
    seq(cols, c requires 0 <= c < cols =>
      seq(rows, i requires 0 <= i < rows => At(m, rows - i - 1, c)))
  }

  /** On a rectangular grid every in-range coordinate reads a real cell. */
  lemma AtInRange(m: Grid, i: int, c: int)
    requires Rectangular(m)
    requires 0 <= i < |m| && 0 <= c < ColumnCount(m)
    ensures At(m, i, c) == m[i][c]
  {
    assert |m[i]| == |m[0]|;
  }

  /** The index formulas of the three non-trivial rotations, read on a
      rectangular grid: 90 degrees sends `m[i][C-1-c]` to `[c][i]`, 180 degrees
      sends `m[R-1-i][C-1-c]` to `[i][c]`, 270 degrees sends `m[R-1-i][c]` to
      `[c][i]`. */
  lemma RotateCells(m: Grid, i: int, c: int)
    requires Rectangular(m)
    requires 0 <= i < |m| && 0 <= c < ColumnCount(m)
    ensures Rotate(m, D90)[c][i] == m[i][ColumnCount(m) - 1 - c]
    ensures Rotate(m, D180)[i][c] == m[|m| - 1 - i][ColumnCount(m) - 1 - c]
    ensures Rotate(m, D270)[c][i] == m[|m| - 1 - i][c]
  {
    AtInRange(m, i, ColumnCount(m) - 1 - c);
    AtInRange(m, |m| - 1 - i, ColumnCount(m) - 1 - c);
    AtInRange(m, |m| - 1 - i, c);
  }

  /* Rotations read as rows and columns. */

  /** Row `C-1-j` of the 90-degree rotation is column `j` of the grid. */
  lemma QuarterTurnRow(m: Grid, j: int)
    requires 0 <= j < ColumnCount(m)
    ensures RotateQuarter(m)[ColumnCount(m) - 1 - j] == Column(m, j)
  {
    var c := ColumnCount(m) - 1 - j;
    assert RotateQuarter(m)[c] == Column(m, ColumnCount(m) - 1 - c);
  }

  /** Row `c` of the 270-degree rotation is column `c` read bottom-up. */
  lemma ThreeQuarterTurnRows(m: Grid)
    requires Rectangular(m)
    ensures forall c :: 0 <= c < ColumnCount(m) ==>
              RotateThreeQuarters(m)[c] == Reverse(Column(m, c))
  {
  }

  /** Row `i` of the 180-degree rotation is row `R-1-i` read backwards,
      provided that row is full length. */
  lemma HalfTurnRow(m: Grid, i: int)
    requires 0 <= i < |m| && |m[|m| - 1 - i]| == ColumnCount(m)
    ensures RotateHalf(m)[i] == Reverse(m[|m| - 1 - i])
  {
    var rows, cols := |m|, ColumnCount(m);
    var k := rows - 1 - i;
    forall c | 0 <= c < cols
      ensures RotateHalf(m)[i][c] == Reverse(m[k])[c]
    {
      assert At(m, k, cols - 1 - c) == m[k][cols - 1 - c];
    }
  }

  /** The 90-degree rotation lists the columns of the grid from the last to
      the first, each read top to bottom. */
  lemma QuarterTurnIsReversedColumns(m: Grid)
    ensures RotateQuarter(m) == Reverse(Columns(m, ColumnCount(m)))
  {
    var cols := ColumnCount(m);
    var f := Reverse(Columns(m, cols));
    forall c | 0 <= c < cols
      ensures RotateQuarter(m)[c] == f[c]
    {
      QuarterTurnRow(m, cols - 1 - c);
    }
  }

  /** The 270-degree rotation lists the columns of the grid from the first to
      the last, each read bottom-up. */
  lemma ThreeQuarterTurnIsReversedRows(m: Grid)
    ensures RotateThreeQuarters(m) == ReverseRows(Columns(m, ColumnCount(m)))
  {
    var cols := ColumnCount(m);
    var g := ReverseRows(Columns(m, cols));
    forall c | 0 <= c < cols
      ensures RotateThreeQuarters(m)[c] == g[c]
    {
      assert g[c] == Reverse(Column(m, c));
    }
  }

  /** Column `j` of the 90-degree rotation of a grid with rows is row `j`
      read backwards. */
  lemma QuarterTurnColumns(m: Grid)
    requires Rectangular(m) && |m| > 0
    ensures forall j :: 0 <= j < |m| ==> Column(RotateQuarter(m), j) == Reverse(m[j])
  {
    var rows, cols := |m|, ColumnCount(m);
    var r := RotateQuarter(m);
    forall j | 0 <= j < rows
      ensures Column(r, j) == Reverse(m[j])
    {
      assert |m[j]| == cols;
      forall i | 0 <= i < cols
        ensures Column(r, j)[i] == Reverse(m[j])[i]
      {
        AtInRange(m, j, cols - 1 - i);
      }
    }
  }

  /** Column `j` of the 270-degree rotation of a grid with rows is row
      `R-1-j`. */
  lemma ThreeQuarterTurnColumns(m: Grid)
    requires Rectangular(m) && |m| > 0
    ensures forall j :: 0 <= j < |m| ==> Column(RotateThreeQuarters(m), j) == m[|m| - 1 - j]
  {
    var rows, cols := |m|, ColumnCount(m);
    var r := RotateThreeQuarters(m);
    forall j | 0 <= j < rows
      ensures Column(r, j) == m[rows - 1 - j]
    {
      assert |m[rows - 1 - j]| == cols;
      forall i | 0 <= i < cols
        ensures Column(r, j)[i] == m[rows - 1 - j][i]
      {
        AtInRange(m, rows - 1 - j, i);
      }
    }
  }

  /** Rotating by 90 and then by 270 degrees gives back the grid. */
  lemma Rotate90Then270(m: Grid)
    requires WellShaped(m)
    ensures RotateThreeQuarters(RotateQuarter(m)) == m
  {
    var x := RotateQuarter(m);
    var y := RotateThreeQuarters(x);
    var rows, cols := |m|, ColumnCount(m);
    if rows > 0 {
      assert ColumnCount(x) == rows;
      forall i | 0 <= i < rows
        ensures y[i] == m[i]
      {
        assert |m[i]| == cols;
        forall j | 0 <= j < cols
          ensures y[i][j] == m[i][j]
        {
          AtInRange(x, cols - 1 - j, i);
          AtInRange(m, i, j);
        }
      }
    }
  }

  /** Rotating by 270 and then by 90 degrees gives back the grid. */
  lemma Rotate270Then90(m: Grid)
    requires WellShaped(m)
    ensures RotateQuarter(RotateThreeQuarters(m)) == m
  {
    var x := RotateThreeQuarters(m);
    var y := RotateQuarter(x);
    var rows, cols := |m|, ColumnCount(m);
    if rows > 0 {
      assert ColumnCount(x) == rows;
      forall i | 0 <= i < rows
        ensures y[i] == m[i]
      {
        assert |m[i]| == cols;
        forall j | 0 <= j < cols
          ensures y[i][j] == m[i][j]
        {
          AtInRange(x, j, rows - 1 - i);
          AtInRange(m, i, j);
        }
      }
    }
  }

  /** Rotating by 180 degrees twice gives back the grid; this holds for any
      rectangular grid, rows of length 0 included. */
  lemma Rotate180Twice(m: Grid)
    requires Rectangular(m)
    ensures RotateHalf(RotateHalf(m)) == m
  {
    var x := RotateHalf(m);
    var y := RotateHalf(x);
    var rows, cols := |m|, ColumnCount(m);
    if rows > 0 {
      assert ColumnCount(x) == cols;
      forall i | 0 <= i < rows
        ensures y[i] == m[i]
      {
        assert |m[i]| == cols;
        forall j | 0 <= j < cols
          ensures y[i][j] == m[i][j]
        {
          AtInRange(x, rows - 1 - i, cols - 1 - j);
          AtInRange(m, i, j);
        }
      }
    }
  }

  /** Two rotations whose quarter turns add up to a full turn undo each other. */
  lemma RotateInverse(m: Grid, a: Degree, b: Degree)
    requires WellShaped(m)
    requires (Turns(a) + Turns(b)) % 4 == 0
    ensures Rotate(Rotate(m, a), b) == m
  {
    match a
    case D0 =>
    case D90 => Rotate90Then270(m);
    case D180 => Rotate180Twice(m);
    case D270 => Rotate270Then90(m);
  }

  /** A grid with rows but no columns loses its rows under a quarter turn: the
      source builds the result from the column count, which is 0. */
  lemma QuarterTurnOfEmptyRows(m: Grid, d: Degree)
    requires |m| > 0 && |m[0]| == 0
    requires d == D90 || d == D270
    ensures Rotate(m, d) == []
    ensures Rotate(Rotate(m, d), d) != m
    ensures Rotate(Rotate(m, D90), D270) != m && Rotate(Rotate(m, D270), D90) != m
  {
  }

  /* Counting cells row by row and column by column. */

  lemma {:induction false} TilesAppend(s: Grid, x: Row)
    ensures Tiles(s + [x]) == Tiles(s) + multiset(x)
  {
    if |s| > 0 {
      assert (s + [x])[1..] == s[1..] + [x];
      TilesAppend(s[1..], x);
    } else {
      assert (s + [x])[1..] == [];
    }
  }

  lemma {:induction false} TilesReverse(s: Grid)
    ensures Tiles(Reverse(s)) == Tiles(s)
  {
    if |s| > 0 {
      assert Reverse(s) == Reverse(s[1..]) + [s[0]];
      TilesAppend(Reverse(s[1..]), s[0]);
      TilesReverse(s[1..]);
    }
  }

  /** Grids whose rows hold the same cells position by position hold the same
      cells overall. */
  lemma {:induction false} TilesPointwise(a: Grid, b: Grid)
    requires |a| == |b|
    requires forall i :: 0 <= i < |a| ==> multiset(a[i]) == multiset(b[i])
    ensures Tiles(a) == Tiles(b)
  {
    if |a| > 0 {
      TilesPointwise(a[1..], b[1..]);
    }
  }

  /** The cells of the first `k` columns. */
  function ColumnTiles(m: Grid, k: nat): multiset<Tile> {
    if k == 0 then multiset{} else ColumnTiles(m, k - 1) + ColumnCells(m, k - 1)
  }

  /** The grid of the first `k` columns, each read top to bottom. */
  function Columns(m: Grid, k: nat): Grid {
    seq(k, j requires 0 <= j < k => Column(m, j))
  }

  lemma {:induction false} ColumnsTiles(m: Grid, k: nat)
    ensures Tiles(Columns(m, k)) == ColumnTiles(m, k)
  {
    if k > 0 {
      assert Columns(m, k) == Columns(m, k - 1) + [Column(m, k - 1)];
      TilesAppend(Columns(m, k - 1), Column(m, k - 1));
      ColumnCellsOfColumn(m, k - 1);
      ColumnsTiles(m, k - 1);
    }
  }

  /** The cells of column `c`, counted down the rows. */
  function ColumnCells(m: Grid, c: int): multiset<Tile> {
    if |m| == 0 then multiset{} else multiset{At(m, 0, c)} + ColumnCells(m[1..], c)
  }

  lemma {:induction false} ColumnCellsOfColumn(m: Grid, c: int)
    ensures ColumnCells(m, c) == multiset(Column(m, c))
  {
    if |m| > 0 {
      assert Column(m, c) == [At(m, 0, c)] + Column(m[1..], c);
      ColumnCellsOfColumn(m[1..], c);
    } else {
      assert Column(m, c) == [];
    }
  }

  /** The first `k` cells of a row, as a multiset. */
  function PrefixTiles(row: Row, k: nat): multiset<Tile>
    requires k <= |row|
  {
    if k == 0 then multiset{} else PrefixTiles(row, k - 1) + multiset{row[k - 1]}
  }

  lemma {:induction false} PrefixTilesAll(row: Row, k: nat)
    requires k <= |row|
    ensures PrefixTiles(row, k) == multiset(row[..k])
  {
    if k > 0 {
      PrefixTilesAll(row, k - 1);
      assert row[..k] == row[..k - 1] + [row[k - 1]];
    }
  }

  /** Dropping the top row takes that row's first `k` cells out of the first
      `k` columns. */
  lemma {:induction false} ColumnTilesSplit(m: Grid, k: nat)
    requires |m| > 0 && k <= |m[0]|
    ensures ColumnTiles(m, k) == PrefixTiles(m[0], k) + ColumnTiles(m[1..], k)
  {
    if k > 0 {
      ColumnTilesSplit(m, k - 1);
      assert At(m, 0, k - 1) == m[0][k - 1];
      Regroup(ColumnTiles(m, k - 1), ColumnCells(m, k - 1),
              PrefixTiles(m[0], k - 1), multiset{At(m, 0, k - 1)},
              ColumnTiles(m[1..], k - 1), ColumnCells(m[1..], k - 1));
    }
  }

  /** The multiset bookkeeping of one column step. */
  lemma Regroup<T>(before: multiset<T>, column: multiset<T>,
                   topBefore: multiset<T>, topCell: multiset<T>,
                   restBefore: multiset<T>, restColumn: multiset<T>)
    requires before == topBefore + restBefore && column == topCell + restColumn
    ensures before + column == (topBefore + topCell) + (restBefore + restColumn)
  {
  }

  /** Counting by rows and counting by columns give the same cells. */
  lemma {:induction false} RowsAndColumnsHoldSameTiles(m: Grid, rows: nat, cols: nat)
    requires HasShape(m, rows, cols)
    ensures Tiles(m) == ColumnTiles(m, cols)
    decreases rows
  {
    if rows == 0 {
      ColumnTilesOfNoRows(m, cols);
    } else {
      ColumnTilesSplit(m, cols);
      PrefixTilesAll(m[0], cols);
      assert m[0][..cols] == m[0];
      RowsAndColumnsHoldSameTiles(m[1..], rows - 1, cols);
    }
  }

  lemma {:induction false} ColumnTilesOfNoRows(m: Grid, k: nat)
    requires |m| == 0
    ensures ColumnTiles(m, k) == multiset{}
  {
    if k > 0 {
      ColumnTilesOfNoRows(m, k - 1);
    }
  }

  lemma QuarterTurnPreservesTiles(m: Grid)
    requires Rectangular(m)
    ensures Tiles(RotateQuarter(m)) == Tiles(m)
  {
    var rows, cols := |m|, ColumnCount(m);
    var r := RotateQuarter(m);
    var columns := Columns(m, cols);
    forall c | 0 <= c < cols
      ensures r[c] == Reverse(columns)[c]
    {
      assert r[c] == Column(m, cols - 1 - c);
    }
    assert r == Reverse(columns);
    TilesReverse(columns);
    ColumnsTiles(m, cols);
    RowsAndColumnsHoldSameTiles(m, rows, cols);
  }

  /** Every row of `m` read backwards. */
  function ReverseRows(m: Grid): (r: Grid)
    ensures |r| == |m|
    ensures forall i :: 0 <= i < |m| ==> r[i] == Reverse(m[i])
  {
    seq(|m|, i requires 0 <= i < |m| => Reverse(m[i]))
  }

  /** The half turn reverses the order of the rows and each row's cells. */
  lemma HalfTurnReversesTwice(m: Grid)
    requires Rectangular(m)
    ensures RotateHalf(m) == Reverse(ReverseRows(m))
  {
    var rows, cols := |m|, ColumnCount(m);
    var r := RotateHalf(m);
    var g := ReverseRows(m);
    var f := Reverse(g);
    assert |f| == rows && |r| == rows;
    forall i | 0 <= i < rows
      ensures r[i] == f[i]
    {
      var k := rows - 1 - i;
      assert f[i] == g[k];
      assert g[k] == Reverse(m[k]);
      assert |m[k]| == |m[0]|;
      HalfTurnRow(m, i);
    }
  }

  lemma HalfTurnPreservesTiles(m: Grid)
    requires Rectangular(m)
    ensures Tiles(RotateHalf(m)) == Tiles(m)
  {
    HalfTurnReversesTwice(m);
    TilesReverse(ReverseRows(m));
    forall i | 0 <= i < |m|
      ensures multiset(ReverseRows(m)[i]) == multiset(m[i])
    {
      ReverseKeepsElements(m[i]);
    }
    TilesPointwise(ReverseRows(m), m);
  }

  lemma ThreeQuarterTurnPreservesTiles(m: Grid)
    requires Rectangular(m)
    ensures Tiles(RotateThreeQuarters(m)) == Tiles(m)
  {
    var rows, cols := |m|, ColumnCount(m);
    var r := RotateThreeQuarters(m);
    var columns := Columns(m, cols);
    forall c | 0 <= c < cols
      ensures multiset(r[c]) == multiset(columns[c])
    {
      assert r[c] == Reverse(Column(m, c));
      ReverseKeepsElements(Column(m, c));
    }
    TilesPointwise(r, columns);
    ColumnsTiles(m, cols);
    RowsAndColumnsHoldSameTiles(m, rows, cols);
  }

  /** Every rotation of a rectangular grid rearranges its cells: the multiset
      of cells, empty ones included, is unchanged. */
  lemma RotatePreservesTiles(m: Grid, d: Degree)
    requires Rectangular(m)
    ensures Tiles(Rotate(m, d)) == Tiles(m)
  {
    match d
    case D0 =>
    case D90 => QuarterTurnPreservesTiles(m);
    case D180 => HalfTurnPreservesTiles(m);
    case D270 => ThreeQuarterTurnPreservesTiles(m);
  }

  /** Rotation keeps the sum of all tile values. */
  lemma RotatePreservesTileSum(m: Grid, d: Degree)
    requires Rectangular(m)
    ensures GridSum(Rotate(m, d)) == GridSum(m)
  {
    RotatePreservesTiles(m, d);
    TileSumIsGridSum(m);
    TileSumIsGridSum(Rotate(m, d));
  }
}
