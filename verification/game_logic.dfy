/** The move engine of src/utils/gameLogic.ts: sliding a whole grid to the
    left, and moving in any direction by rotating around the left slide.
    Spawning tiles is in module Spawn. */
module GameLogic {
  import opened Board
  import opened Rotation
  import opened Merge

  /* ---------------- Sliding the whole grid left ---------------- */

  /** The outcome of `moveLeft`: the slid grid, whether any row changed, and
      the score the merges earned. */
  datatype MoveResult = MoveResult(result: Grid, isMoved: bool, score: int)

  /** The reference score of a grid: the sum over its rows of the values the
      reference merge creates. */
  function GridMergeScore(m: Grid): int {
    if |m| == 0 then 0 else MergeScore(Occupied(m[0])) + GridMergeScore(m[1..])
  }

  /** `moveLeft`: slide every row, add up the row scores, and report a move
      when some row moved. */
  function MoveLeft(m: Grid): (r: MoveResult)
    ensures |r.result| == |m|
    ensures forall i :: 0 <= i < |m| ==> r.result[i] == MoveRowLeft(m[i]).result
    ensures r.isMoved <==> r.result != m
    ensures r.score == GridMergeScore(m)
  {
    if |m| == 0 then MoveResult([], false, 0)
    else
      var head := MoveRowLeft(m[0]);
      var tail := MoveLeft(m[1..]);
      var result := [head.result] + tail.result;
      ConsDiffers(head.result, m[0], tail.result, m[1..]);
      ConsAt(head.result, tail.result);
      ConsAt(m[0], m[1..]);
      assert m == [m[0]] + m[1..];
      MoveResult(result, head.isMoved || tail.isMoved, head.rowScore + tail.score)
  }

  /** Two sequences built by consing differ exactly when their heads or
      their tails do. */
  lemma ConsDiffers<T>(x: T, y: T, xs: seq<T>, ys: seq<T>)
    ensures [x] + xs != [y] + ys <==> x != y || xs != ys
  {
    if [x] + xs == [y] + ys {
      assert ([x] + xs)[0] == x && ([x] + xs)[1..] == xs;
      assert ([y] + ys)[0] == y && ([y] + ys)[1..] == ys;
    }
  }

  /** Indexing into a consed sequence past its head indexes into the tail. */
  lemma ConsAt<T>(x: T, xs: seq<T>)
    ensures forall i :: 1 <= i <= |xs| ==> ([x] + xs)[i] == xs[i - 1]
  {
  }

  /** Sliding keeps the number of rows and the length of every row, ragged
      grids included; so an R-by-C grid slides to an R-by-C grid. */
  lemma MoveLeftKeepsShape(m: Grid, rows: nat, cols: nat)
    ensures |MoveLeft(m).result| == |m|
    ensures forall i :: 0 <= i < |m| ==> |MoveLeft(m).result[i]| == |m[i]|
    ensures HasShape(m, rows, cols) ==> HasShape(MoveLeft(m).result, rows, cols)
  {
  }

  /** Sliding keeps the sum of all tile values. */
  lemma {:induction false} MoveLeftKeepsSum(m: Grid)
    ensures GridSum(MoveLeft(m).result) == GridSum(m)
  {
    if |m| > 0 {
      SlideKeepsRowSum(m[0]);
      MoveLeftKeepsSum(m[1..]);
      assert MoveLeft(m).result[1..] == MoveLeft(m[1..]).result;
    }
  }

  /** A grid earns a nonzero score only if some row moved. */
  lemma {:induction false} MoveLeftScoreNeedsMove(m: Grid)
    ensures MoveLeft(m).score != 0 ==> MoveLeft(m).isMoved
  {
    if |m| > 0 {
      ScoreImpliesMoved(m[0]);
      MoveLeftScoreNeedsMove(m[1..]);
      assert MoveLeft(m).result[1..] == MoveLeft(m[1..]).result;
    }
  }

  /** Sliding left leaves the grid unchanged exactly when every row is packed
      to the left with no two equal neighbours. */
  lemma MoveLeftNoMoveIff(m: Grid)
    ensures !MoveLeft(m).isMoved <==>
            forall i :: 0 <= i < |m| ==> LeftPacked(m[i]) && NoEqualNeighbours(Occupied(m[i]))
  {
    forall i | 0 <= i < |m| {
      NoMoveIff(m[i]);
    }
    if !MoveLeft(m).isMoved {
      forall i | 0 <= i < |m|
        ensures !MoveRowLeft(m[i]).isMoved
      {
        assert MoveLeft(m).result[i] == m[i];
      }
    }
  }

  /* ---------------- Moving in any direction ---------------- */

  /** `rotateDegreeMap`: the rotation that turns direction `d` into left. */
  function RotateDegree(d: Direction): Degree {
    match d
    case Up => D90
    case Right => D180
    case Down => D270
    case Left => D0
  }

  /** `revertDegreeMap`: the rotation that restores the orientation. */
  function RevertDegree(d: Direction): Degree {
    match d
    case Up => D270
    case Right => D180
    case Down => D90
    case Left => D0
  }

  /** For every direction the forward and the reverting rotation together
      make whole turns, so either order gives back the grid. */
  lemma RevertUndoesRotate(m: Grid, d: Direction)
    requires WellShaped(m)
    ensures Rotate(Rotate(m, RotateDegree(d)), RevertDegree(d)) == m
    ensures Rotate(Rotate(m, RevertDegree(d)), RotateDegree(d)) == m
  {
    RotateInverse(m, RotateDegree(d), RevertDegree(d));
    RotateInverse(m, RevertDegree(d), RotateDegree(d));
  }

  /** The outcome of `moveMapIn2048Rule`: the moved grid, whether it moved,
      and the amount handed to the score setter (0 when the setter is not
      called). */
  datatype MoveOutcome = MoveOutcome(result: Grid, isMoved: bool, scoreAdded: int)

  /** `moveMapIn2048Rule` of gameLogic.ts: rotate so that `d` points left,
      slide left, rotate back. The score is passed on only when positive. */
  function MoveMapIn2048Rule(m: Grid, d: Direction): (r: MoveOutcome)
    ensures r.scoreAdded >= 0
  {
    var moved := MoveLeft(Rotate(m, RotateDegree(d)));
    MoveOutcome(
      Rotate(moved.result, RevertDegree(d)),
      moved.isMoved,
      if moved.score > 0 then moved.score else 0)
  }

  /** Moving left is `moveLeft` itself: both rotations are by 0 degrees. */
  lemma LeftIsMoveLeft(m: Grid)
    ensures MoveMapIn2048Rule(m, Left).result == MoveLeft(m).result
    ensures MoveMapIn2048Rule(m, Left).isMoved == MoveLeft(m).isMoved
    ensures MoveMapIn2048Rule(m, Left).scoreAdded == (if MoveLeft(m).score > 0 then MoveLeft(m).score else 0)
  {
  }

  /** The slid grid, before rotating back, has the rotated grid's shape. */
  lemma RotatedSlideShape(m: Grid, d: Direction)
    requires Rectangular(m)
    ensures var x := Rotate(m, RotateDegree(d));
            var y := MoveLeft(x).result;
            HasShape(y, |x|, ColumnCount(x)) && Rectangular(x)
  {
    var x := Rotate(m, RotateDegree(d));
    assert HasShape(x, |x|, ColumnCount(x));
    MoveLeftKeepsShape(x, |x|, ColumnCount(x));
  }

  /** A move keeps the grid's shape. */
  lemma MoveKeepsShape(m: Grid, d: Direction)
    requires WellShaped(m)
    ensures HasShape(MoveMapIn2048Rule(m, d).result, |m|, ColumnCount(m))
  {
    RotatedSlideShape(m, d);
    var x := Rotate(m, RotateDegree(d));
    var y := MoveLeft(x).result;
    assert HasShape(m, |m|, ColumnCount(m));
    if |m| > 0 && RotateDegree(d) != D0 && RotateDegree(d) != D180 {
      assert ColumnCount(x) == |m|;
      assert ColumnCount(y) == |m|;
    }
  }

  /** A move reports `isMoved` exactly when the grid it returns differs from
      the grid it was given. */
  lemma MovedIffChanged(m: Grid, d: Direction)
    requires WellShaped(m)
    ensures MoveMapIn2048Rule(m, d).isMoved <==> MoveMapIn2048Rule(m, d).result != m
  {
    var x := Rotate(m, RotateDegree(d));
    var y := MoveLeft(x).result;
    var out := MoveMapIn2048Rule(m, d).result;
    assert out == Rotate(y, RevertDegree(d));
    assert MoveMapIn2048Rule(m, d).isMoved <==> y != x;
    if out == m {
      // Rotating both sides forward again recovers the slid grid.
      assert WellShaped(y) by {
        RotatedSlideShape(m, d);
        if |y| > 0 {
          WellShapedRotation(m, RotateDegree(d));
        }
      }
      assert Rotate(out, RotateDegree(d)) == y by {
        RevertUndoesRotate(y, d);
      }
    } else {
      assert y == x ==> out == m by {
        RevertUndoesRotate(m, d);
      }
    }
  }

  /** A non-trivial rotation of a well-shaped grid is well shaped. */
  lemma WellShapedRotation(m: Grid, a: Degree)
    requires WellShaped(m)
    ensures WellShaped(Rotate(m, a))
  {
    var x := Rotate(m, a);
    if |x| > 0 {
      assert |m| > 0;
      assert HasShape(m, |m|, ColumnCount(m));
    }
  }

  /** Moves keep the sum of all tile values on a rectangular grid. */
  lemma MoveKeepsTileSum(m: Grid, d: Direction)
    requires Rectangular(m)
    ensures GridSum(MoveMapIn2048Rule(m, d).result) == GridSum(m)
  {
    var x := Rotate(m, RotateDegree(d));
    var y := MoveLeft(x).result;
    assert GridSum(x) == GridSum(m) by {
      RotatePreservesTileSum(m, RotateDegree(d));
    }
    assert GridSum(y) == GridSum(x) by {
      MoveLeftKeepsSum(x);
    }
    assert Rectangular(y) by {
      RotatedSlideShape(m, d);
    }
    assert GridSum(Rotate(y, RevertDegree(d))) == GridSum(y) by {
      RotatePreservesTileSum(y, RevertDegree(d));
    }
  }

  /** The score setter is only called on a move that moved. */
  lemma ScoreOnlyWhenMoved(m: Grid, d: Direction)
    ensures MoveMapIn2048Rule(m, d).scoreAdded > 0 ==> MoveMapIn2048Rule(m, d).isMoved
  {
    MoveLeftScoreNeedsMove(Rotate(m, RotateDegree(d)));
  }

  /** The slide of a single line. */
  function Slide(line: Row): Row {
    MoveRowLeft(line).result
  }

  /** Row `i` of the slid grid is row `i` slid. */
  lemma SlidRow(m: Grid, i: int)
    requires 0 <= i < |m|
    ensures MoveLeft(m).result[i] == Slide(m[i])
  {
  }

  /** Moving up slides the grid turned a quarter and turns it back. */
  lemma UpUnfolds(m: Grid)
    ensures MoveMapIn2048Rule(m, Up).result == RotateThreeQuarters(MoveLeft(RotateQuarter(m)).result)
  {
  }

  /** Moving down slides the grid turned three quarters and turns it back. */
  lemma DownUnfolds(m: Grid)
    ensures MoveMapIn2048Rule(m, Down).result == RotateQuarter(MoveLeft(RotateThreeQuarters(m)).result)
  {
  }

  /** Moving right slides the grid turned half around and turns it back. */
  lemma RightUnfolds(m: Grid)
    ensures MoveMapIn2048Rule(m, Right).result == RotateHalf(MoveLeft(RotateHalf(m)).result)
  {
  }

  /** Column `j` after moving up is column `j` slid towards the top. */
  lemma UpColumn(m: Grid, j: int)
    requires WellShaped(m) && 0 <= j < ColumnCount(m)
    ensures Column(MoveMapIn2048Rule(m, Up).result, j) == Slide(Column(m, j))
  {
    var cols := ColumnCount(m);
    var x := RotateQuarter(m);
    var y := MoveLeft(x).result;
    var k := cols - 1 - j;
    assert MoveMapIn2048Rule(m, Up).result == RotateThreeQuarters(y) by {
      UpUnfolds(m);
    }
    assert Column(RotateThreeQuarters(y), j) == y[k] by {
      RotatedSlideShape(m, Up);
      ThreeQuarterTurnColumns(y);
    }
    assert x[k] == Column(m, j) by {
      QuarterTurnRow(m, j);
    }
    assert y[k] == Slide(x[k]) by {
      SlidRow(x, k);
    }
  }

  /** Moving up slides every column towards the top. */
  lemma UpSlidesColumns(m: Grid)
    requires WellShaped(m)
    ensures var out := MoveMapIn2048Rule(m, Up).result;
            forall j :: 0 <= j < ColumnCount(m) ==> Column(out, j) == Slide(Column(m, j))
  {
    forall j | 0 <= j < ColumnCount(m) {
      UpColumn(m, j);
    }
  }

  /** Column `j` after moving down is column `j` slid towards the bottom. */
  lemma DownColumn(m: Grid, j: int)
    requires WellShaped(m) && 0 <= j < ColumnCount(m)
    ensures Column(MoveMapIn2048Rule(m, Down).result, j) == Reverse(Slide(Reverse(Column(m, j))))
  {
    var x := RotateThreeQuarters(m);
    var y := MoveLeft(x).result;
    assert MoveMapIn2048Rule(m, Down).result == RotateQuarter(y) by {
      DownUnfolds(m);
    }
    assert Column(RotateQuarter(y), j) == Reverse(y[j]) by {
      RotatedSlideShape(m, Down);
      QuarterTurnColumns(y);
    }
    assert x[j] == Reverse(Column(m, j)) by {
      ThreeQuarterTurnRows(m);
    }
    assert y[j] == Slide(x[j]) by {
      SlidRow(x, j);
    }
  }

  /** Moving down slides every column towards the bottom: the column read
      bottom-up is slid, then read top-down again. */
  lemma DownSlidesColumns(m: Grid)
    requires WellShaped(m)
    ensures var out := MoveMapIn2048Rule(m, Down).result;
            forall j :: 0 <= j < ColumnCount(m) ==>
              Column(out, j) == Reverse(Slide(Reverse(Column(m, j))))
  {
    forall j | 0 <= j < ColumnCount(m) {
      DownColumn(m, j);
    }
  }

  /** Row `i` after moving right is row `i` slid towards the right. */
  lemma RightRow(m: Grid, i: int)
    requires Rectangular(m) && 0 <= i < |m|
    ensures MoveMapIn2048Rule(m, Right).result[i] == Reverse(Slide(Reverse(m[i])))
  {
    var rows := |m|;
    var x := RotateHalf(m);
    var y := MoveLeft(x).result;
    var k := rows - 1 - i;
    assert MoveMapIn2048Rule(m, Right).result == RotateHalf(y) by {
      RightUnfolds(m);
    }
    assert y[k] == Slide(x[k]) by {
      SlidRow(x, k);
    }
    assert |y[k]| == ColumnCount(y) by {
      assert |y[0]| == |x[0]| && |y[k]| == |x[k]|;
    }
    HalfTurnRow(y, i);
    assert x[k] == Reverse(m[i]) by {
      assert |m[i]| == |m[0]|;
      HalfTurnRow(m, k);
    }
  }

  /** Moving right slides every row towards the right: the row read backwards
      is slid, then read forwards again. */
  lemma RightSlidesRows(m: Grid)
    requires Rectangular(m)
    ensures var out := MoveMapIn2048Rule(m, Right).result;
            |out| == |m| && forall i :: 0 <= i < |m| ==> out[i] == Reverse(Slide(Reverse(m[i])))
  {
    RotatedSlideShape(m, Right);
    forall i | 0 <= i < |m| {
      RightRow(m, i);
    }
  }

  /* ---------------- The score of a move in any direction ---------------- */

  /** The lines a move in direction `d` slides, each read towards the edge the
      tiles travel to: the rows for left, the rows read backwards for right,
      the columns top-down for up, and the columns bottom-up for down. */
  function SlidLines(m: Grid, d: Direction): Grid {
    match d
    case Left => m
    case Right => ReverseRows(m)
    case Up => Columns(m, ColumnCount(m))
    case Down => ReverseRows(Columns(m, ColumnCount(m)))
  }

  /** Scores add up over a split list of lines. */
  lemma {:induction false} GridMergeScoreAppend(a: Grid, b: Grid)
    ensures GridMergeScore(a + b) == GridMergeScore(a) + GridMergeScore(b)
  {
    if |a| > 0 {
      assert (a + b)[1..] == a[1..] + b;
      GridMergeScoreAppend(a[1..], b);
    } else {
      assert a + b == b;
    }
  }

  /** Reading the lines in reverse keeps their summed score. */
  lemma {:induction false} GridMergeScoreReverse(lines: Grid)
    ensures GridMergeScore(Reverse(lines)) == GridMergeScore(lines)
  {
    if |lines| > 0 {
      GridMergeScoreReverse(lines[1..]);
      GridMergeScoreAppend(Reverse(lines[1..]), [lines[0]]);
      assert GridMergeScore([lines[0]]) == MergeScore(Occupied(lines[0])) by {
        assert [lines[0]][1..] == [];
      }
    }
  }

  /** Removing the element at `j` removes one copy of it from the multiset. */
  lemma RemoveAtMultiset<T>(s: seq<T>, j: int)
    requires 0 <= j < |s|
    ensures multiset(s[..j] + s[j + 1..]) == multiset(s) - multiset{s[j]}
  {
    assert s == s[..j] + [s[j]] + s[j + 1..];
  }

  /** The score of `p + [x] + q` is the score of `x` plus that of `p + q`. */
  lemma SplitScore(p: Grid, x: Row, q: Grid)
    ensures GridMergeScore(p + [x] + q) == MergeScore(Occupied(x)) + GridMergeScore(p + q)
  {
    GridMergeScoreAppend(p + [x], q);
    GridMergeScoreAppend(p, [x]);
    GridMergeScoreAppend(p, q);
    assert GridMergeScore([x]) == MergeScore(Occupied(x)) by {
      assert [x][1..] == [];
    }
  }

  /** The summed score of a list of lines does not depend on their order:
      any two lists holding the same lines, counted with multiplicity, score
      the same. */
  lemma {:induction false} GridMergeScorePermutation(a: Grid, b: Grid)
    requires multiset(a) == multiset(b)
    ensures GridMergeScore(a) == GridMergeScore(b)
    decreases |a|
  {
    if |a| == 0 {
      assert |b| == |multiset(b)| == 0;
    } else {
      assert a[0] in multiset(b);
      var j :| 0 <= j < |b| && b[j] == a[0];
      var p, q := b[..j], b[j + 1..];
      assert GridMergeScore(b) == MergeScore(Occupied(a[0])) + GridMergeScore(p + q) by {
        assert b == p + [a[0]] + q;
        SplitScore(p, a[0], q);
      }
      assert multiset(a[1..]) == multiset(p + q) by {
        RemoveAtMultiset(b, j);
        assert a == [a[0]] + a[1..];
      }
      GridMergeScorePermutation(a[1..], p + q);
    }
  }

  /** The slide that a move in direction `d` performs scores exactly the
      reference score of the lines that direction slides. */
  lemma RawMoveScore(m: Grid, d: Direction)
    requires Rectangular(m)
    ensures MoveLeft(Rotate(m, RotateDegree(d))).score == GridMergeScore(SlidLines(m, d))
  {
    match d
    case Left =>
    case Right =>
      HalfTurnReversesTwice(m);
      GridMergeScoreReverse(ReverseRows(m));
    case Up =>
      QuarterTurnIsReversedColumns(m);
      GridMergeScoreReverse(Columns(m, ColumnCount(m)));
    case Down =>
      ThreeQuarterTurnIsReversedRows(m);
  }

  /** A move in any direction hands the score setter the sum, over the lines
      that direction slides, of the values their merges create, or nothing
      when that sum is not positive. */
  lemma MoveScore(m: Grid, d: Direction)
    requires Rectangular(m)
    ensures var g := GridMergeScore(SlidLines(m, d));
            MoveMapIn2048Rule(m, d).scoreAdded == if g > 0 then g else 0
  {
    RawMoveScore(m, d);
  }
}
