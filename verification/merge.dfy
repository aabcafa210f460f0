/** Sliding one row to the left (`moveRowLeft` in src/utils/gameLogic.ts,
    repeated in src/App.tsx up to type annotations and comments), and the reference merge rule it is proved
    against. */
module Merge {
  import opened Wrappers
  import opened Board

  /* ---------------- The reference merge rule ---------------- */

  /** The canonical single-pass merge of a row's tile values, read from the
      left: the first two values merge into their double when equal, and a
      merged value is never looked at again. */
  function Merged(v: seq<int>): (r: seq<int>)
    ensures |r| <= |v|
  {
    if |v| < 2 then v
    else if v[0] == v[1] then [v[0] * 2] + Merged(v[2..])
    else [v[0]] + Merged(v[1..])
  }

  /** The score the reference merge earns: the sum of the merged values. */
  function MergeScore(v: seq<int>): int {
    if |v| < 2 then 0
    else if v[0] == v[1] then v[0] * 2 + MergeScore(v[2..])
    else MergeScore(v[1..])
  }

  /** The number of merges the reference merge performs. */
  function MergeCount(v: seq<int>): nat {
    if |v| < 2 then 0
    else if v[0] == v[1] then 1 + MergeCount(v[2..])
    else MergeCount(v[1..])
  }

  function Sum(v: seq<int>): int {
    if |v| == 0 then 0 else v[0] + Sum(v[1..])
  }

  /** No two neighbouring values are equal. */
  predicate NoEqualNeighbours(v: seq<int>) {
    forall i :: 0 <= i < |v| - 1 ==> v[i] != v[i + 1]
  }

  /* ---------------- The source's fold ---------------- */

  /** The accumulator of the source's `reduce`: the occupied cell still waiting
      for a partner (`lastCell`), the cells already placed (`result`), and the
      score earned so far (the source keeps it in a variable the reducer
      updates; here it travels with the accumulator). */
  datatype Acc = Acc(lastCell: Tile, placed: seq<Tile>, score: int)

  /** One step of the reducer: skip an empty cell; hold the first occupied
      cell; merge it with an equal successor and forget it; or place the held
      cell and hold the new one. */
  function Step(acc: Acc, cell: Tile): Acc {
    match cell
    case None => acc
    case Some(v) =>
      if acc.lastCell.None? then acc.(lastCell := cell)
      else if acc.lastCell.value == v then Acc(None, acc.placed + [Some(v * 2)], acc.score + v * 2)
      else Acc(cell, acc.placed + [acc.lastCell], acc.score)
  }

  /** The left-to-right fold of `Step` over `cells`. */
  function Fold(acc: Acc, cells: Row): Acc
    decreases |cells|
  {
    if |cells| == 0 then acc else Fold(Step(acc, cells[0]), cells[1..])
  }

  /** The value a cell keeps through the filter: its tile value, or nothing
      when it is empty. */
  function CellValues(t: Tile): seq<int> {
    if t.Some? then [t.value] else []
  }

  /** The values of the occupied cells, in order (`filter(val !== null)`). */
  function Occupied(s: seq<Tile>): (r: seq<int>)
    ensures |r| <= |s|
  {
    if |s| == 0 then [] else CellValues(s[0]) + Occupied(s[1..])
  }

  /** A row of length `n` holding `vals` from the left and empty cells after
      them (`Array.from({ length: n }, (_, i) => vals[i] ?? null)`). */
  function PadRight(vals: seq<int>, n: nat): (r: Row)
    ensures |r| == n
  {
    seq(n, i requires 0 <= i < n => if i < |vals| then Some(vals[i]) else None)
  }

  /** Every occupied cell lies left of every empty one. */
  predicate LeftPacked(row: Row) {
    forall i, j :: 0 <= i < j < |row| && row[i].None? ==> row[j].None?
  }

  /** The outcome of sliding one row. */
  datatype RowMove = RowMove(result: Row, isMoved: bool, rowScore: int)

  /** `moveRowLeft`: fold the row with the reducer, keep the occupied cells of
      the placed cells and the held one, pad with empty cells to the row's
      length, and report whether any position changed. The result is the
      reference merge of the row's values, packed to the left. */
  function MoveRowLeft(row: Row): (r: RowMove)
    ensures r.result == PadRight(Merged(Occupied(row)), |row|)
    ensures r.rowScore == MergeScore(Occupied(row))
    ensures r.isMoved <==> r.result != row
  {
    var reduced := Fold(Acc(None, [], 0), row);
    var result := Occupied(reduced.placed + [reduced.lastCell]);
    var resultRow := PadRight(result, |row|);
    FoldMatchesReference(Acc(None, [], 0), row);
    assert ([None] + row)[1..] == row;
    assert Pending(Acc(None, [], 0), row) == Occupied(row);
    assert Occupied([]) + Merged(Occupied(row)) == Merged(Occupied(row));
    RowMove(resultRow, exists i :: 0 <= i < |row| && row[i] != resultRow[i], reduced.score)
  }

  /* ---------------- Proofs ---------------- */

  lemma {:induction false} OccupiedAppend(a: seq<Tile>, b: seq<Tile>)
    ensures Occupied(a + b) == Occupied(a) + Occupied(b)
  {
    if |a| > 0 {
      assert (a + b)[1..] == a[1..] + b;
      OccupiedAppend(a[1..], b);
    } else {
      assert a + b == b;
    }
  }

  /** The values the accumulator still has to merge: the held cell's value,
      if any, followed by the occupied cells of `rest`. */
  function Pending(acc: Acc, rest: Row): seq<int> {
    Occupied([acc.lastCell] + rest)
  }

  /** The invariant the reducer keeps: the placed cells followed by the
      reference merge of the pending values, and the score earned so far plus
      the score the pending values will earn, do not change from step to step. */
  predicate SameReference(a: Acc, restA: Row, b: Acc, restB: Row) {
    && Occupied(a.placed) + Merged(Pending(a, restA)) == Occupied(b.placed) + Merged(Pending(b, restB))
    && a.score + MergeScore(Pending(a, restA)) == b.score + MergeScore(Pending(b, restB))
  }

  lemma OccupiedCons(t: Tile, rest: Row)
    ensures Occupied([t] + rest) == CellValues(t) + Occupied(rest)
  {
    assert ([t] + rest)[1..] == rest;
  }

  lemma StepSkipsEmpty(acc: Acc, rest: Row)
    ensures SameReference(Step(acc, None), rest, acc, [None] + rest)
  {
    OccupiedCons(None, rest);
    OccupiedCons(acc.lastCell, [None] + rest);
    OccupiedCons(acc.lastCell, rest);
    assert Pending(acc, [None] + rest) == Pending(acc, rest);
  }

  lemma StepHolds(acc: Acc, v: int, rest: Row)
    requires acc.lastCell.None?
    ensures SameReference(Step(acc, Some(v)), rest, acc, [Some(v)] + rest)
  {
    OccupiedCons(Some(v), rest);
    OccupiedCons(None, [Some(v)] + rest);
    assert Pending(acc, [Some(v)] + rest) == Pending(Step(acc, Some(v)), rest);
  }

  lemma MergedPair(v: int, tail: seq<int>)
    ensures Merged([v, v] + tail) == [v * 2] + Merged(tail)
    ensures MergeScore([v, v] + tail) == v * 2 + MergeScore(tail)
  {
    assert ([v, v] + tail)[2..] == tail;
  }

  /** The values a merging step reads: the held value twice, then the rest. */
  lemma MergeStepReads(acc: Acc, v: int, rest: Row)
    requires acc.lastCell == Some(v)
    ensures Pending(acc, [Some(v)] + rest) == [v, v] + Occupied(rest)
  {
    OccupiedCons(Some(v), rest);
    OccupiedCons(Some(v), [Some(v)] + rest);
  }

  /** After a merging step nothing is held. */
  lemma MergeStepLeaves(acc: Acc, v: int, rest: Row)
    requires acc.lastCell == Some(v)
    ensures Pending(Step(acc, Some(v)), rest) == Occupied(rest)
  {
    OccupiedCons(None, rest);
  }

  /** A merging step places the doubled value. */
  lemma MergeStepWrites(acc: Acc, v: int)
    requires acc.lastCell == Some(v)
    ensures Occupied(Step(acc, Some(v)).placed) == Occupied(acc.placed) + [v * 2]
  {
    OccupiedAppend(acc.placed, [Some(v * 2)]);
    assert Occupied([Some(v * 2)]) == [v * 2];
  }

  lemma MergeStepContent(acc: Acc, v: int, rest: Row)
    requires acc.lastCell == Some(v)
    ensures Occupied(Step(acc, Some(v)).placed) + Merged(Pending(Step(acc, Some(v)), rest))
            == Occupied(acc.placed) + Merged(Pending(acc, [Some(v)] + rest))
  {
    var after := Step(acc, Some(v));
    var o := Occupied(acc.placed);
    var t := Merged(Occupied(rest));
    assert Occupied(after.placed) + Merged(Pending(after, rest)) == (o + [v * 2]) + t by {
      MergeStepLeaves(acc, v, rest);
      MergeStepWrites(acc, v);
    }
    assert Merged(Pending(acc, [Some(v)] + rest)) == [v * 2] + t by {
      MergeStepReads(acc, v, rest);
      MergedPair(v, Occupied(rest));
    }
    assert (o + [v * 2]) + t == o + ([v * 2] + t);
  }

  lemma MergeStepScore(acc: Acc, v: int, rest: Row)
    requires acc.lastCell == Some(v)
    ensures Step(acc, Some(v)).score + MergeScore(Pending(Step(acc, Some(v)), rest))
            == acc.score + MergeScore(Pending(acc, [Some(v)] + rest))
  {
    MergeStepReads(acc, v, rest);
    MergeStepLeaves(acc, v, rest);
    MergedPair(v, Occupied(rest));
  }

  lemma StepMerges(acc: Acc, v: int, rest: Row)
    requires acc.lastCell == Some(v)
    ensures SameReference(Step(acc, Some(v)), rest, acc, [Some(v)] + rest)
  {
    MergeStepContent(acc, v, rest);
    MergeStepScore(acc, v, rest);
  }

  /** The values a placing step reads: the held value, then the new one and
      the rest. */
  lemma PlaceStepReads(acc: Acc, v: int, rest: Row)
    requires acc.lastCell.Some?
    ensures Pending(acc, [Some(v)] + rest) == [acc.lastCell.value, v] + Occupied(rest)
  {
    OccupiedCons(Some(v), rest);
    OccupiedCons(acc.lastCell, [Some(v)] + rest);
  }

  /** After a placing step the new value is held. */
  lemma PlaceStepHolds(acc: Acc, v: int, rest: Row)
    requires acc.lastCell.Some? && acc.lastCell.value != v
    ensures Pending(Step(acc, Some(v)), rest) == [v] + Occupied(rest)
  {
    OccupiedCons(Some(v), rest);
  }

  /** A placing step places the held value. */
  lemma PlaceStepWrites(acc: Acc, v: int)
    requires acc.lastCell.Some? && acc.lastCell.value != v
    ensures Occupied(Step(acc, Some(v)).placed) == Occupied(acc.placed) + [acc.lastCell.value]
  {
    OccupiedAppend(acc.placed, [acc.lastCell]);
    assert Occupied([acc.lastCell]) == [acc.lastCell.value];
  }

  /** The reference merge of two unequal leading values keeps the first. */
  lemma MergedUnequal(x: int, v: int, tail: seq<int>)
    requires x != v
    ensures Merged([x, v] + tail) == [x] + Merged([v] + tail)
    ensures MergeScore([x, v] + tail) == MergeScore([v] + tail)
  {
    assert ([x, v] + tail)[1..] == [v] + tail;
  }

  lemma StepPlaces(acc: Acc, v: int, rest: Row)
    requires acc.lastCell.Some? && acc.lastCell.value != v
    ensures SameReference(Step(acc, Some(v)), rest, acc, [Some(v)] + rest)
  {
    var next := Step(acc, Some(v));
    var x := acc.lastCell.value;
    var o := Occupied(acc.placed);
    var t := Merged([v] + Occupied(rest));
    assert Occupied(next.placed) + Merged(Pending(next, rest)) == (o + [x]) + t by {
      PlaceStepHolds(acc, v, rest);
      PlaceStepWrites(acc, v);
    }
    assert Merged(Pending(acc, [Some(v)] + rest)) == [x] + t by {
      PlaceStepReads(acc, v, rest);
      MergedUnequal(x, v, Occupied(rest));
    }
    assert (o + [x]) + t == o + ([x] + t);
    assert next.score + MergeScore(Pending(next, rest)) == acc.score + MergeScore(Pending(acc, [Some(v)] + rest)) by {
      PlaceStepHolds(acc, v, rest);
      PlaceStepReads(acc, v, rest);
      MergedUnequal(x, v, Occupied(rest));
    }
  }

  /** One reducer step keeps the invariant. */
  lemma StepKeepsReference(acc: Acc, c: Tile, rest: Row)
    ensures SameReference(Step(acc, c), rest, acc, [c] + rest)
  {
    match c
    case None => StepSkipsEmpty(acc, rest);
    case Some(v) =>
      if acc.lastCell.None? {
        StepHolds(acc, v, rest);
      } else if acc.lastCell.value == v {
        StepMerges(acc, v, rest);
      } else {
        StepPlaces(acc, v, rest);
      }
  }

  /** Folding `cells` into `acc` yields, once flushed, the cells `acc` had
      placed followed by the reference merge of the held cell and `cells`; the
      score grows by the reference score. */
  lemma {:induction false} FoldMatchesReference(acc: Acc, cells: Row)
    ensures Occupied(Fold(acc, cells).placed + [Fold(acc, cells).lastCell])
            == Occupied(acc.placed) + Merged(Pending(acc, cells))
    ensures Fold(acc, cells).score == acc.score + MergeScore(Pending(acc, cells))
    decreases |cells|
  {
    if |cells| == 0 {
      assert [acc.lastCell] + cells == [acc.lastCell];
      OccupiedAppend(acc.placed, [acc.lastCell]);
    } else {
      var rest := cells[1..];
      assert cells == [cells[0]] + rest;
      FoldMatchesReference(Step(acc, cells[0]), rest);
      StepKeepsReference(acc, cells[0], rest);
    }
  }

  lemma {:induction false} SumAppend(a: seq<int>, b: seq<int>)
    ensures Sum(a + b) == Sum(a) + Sum(b)
  {
    if |a| > 0 {
      assert (a + b)[1..] == a[1..] + b;
      SumAppend(a[1..], b);
    } else {
      assert a + b == b;
    }
  }

  /** Merging keeps the total value: two equal values become their sum. */
  lemma {:induction false} MergedKeepsSum(v: seq<int>)
    ensures Sum(Merged(v)) == Sum(v)
  {
    if |v| >= 2 {
      if v[0] == v[1] {
        MergedKeepsSum(v[2..]);
        assert v[1..][1..] == v[2..];
      } else {
        MergedKeepsSum(v[1..]);
      }
      SumAppend([Merged(v)[0]], Merged(v)[1..]);
      assert Merged(v) == [Merged(v)[0]] + Merged(v)[1..];
    }
  }

  /** Every merge takes exactly one value out of the row. */
  lemma {:induction false} MergedLength(v: seq<int>)
    ensures |Merged(v)| + MergeCount(v) == |v|
  {
    if |v| >= 2 {
      if v[0] == v[1] {
        MergedLength(v[2..]);
      } else {
        MergedLength(v[1..]);
      }
    }
  }

  /** A nonzero score needs at least one merge. */
  lemma {:induction false} ScoreNeedsMerge(v: seq<int>)
    ensures MergeScore(v) != 0 ==> MergeCount(v) > 0
  {
    if |v| >= 2 {
      if v[0] != v[1] {
        ScoreNeedsMerge(v[1..]);
      } else {
        ScoreNeedsMerge(v[2..]);
      }
    }
  }

  /** With positive tile values the score is positive exactly when some merge
      happens. */
  lemma {:induction false} PositiveScoreIffMerge(v: seq<int>)
    requires forall i :: 0 <= i < |v| ==> v[i] > 0
    ensures MergeScore(v) >= 0
    ensures MergeScore(v) > 0 <==> MergeCount(v) > 0
  {
    if |v| >= 2 {
      if v[0] != v[1] {
        PositiveScoreIffMerge(v[1..]);
      } else {
        PositiveScoreIffMerge(v[2..]);
      }
    }
  }

  /** The reference merge leaves a row alone exactly when no two neighbouring
      values are equal. */
  lemma {:induction false} MergedIdentityIff(v: seq<int>)
    ensures Merged(v) == v <==> NoEqualNeighbours(v)
  {
    if |v| >= 2 {
      if v[0] == v[1] {
        MergedLength(v);
        assert !NoEqualNeighbours(v) by { assert v[0] == v[1]; }
      } else {
        MergedIdentityIff(v[1..]);
        assert v == [v[0]] + v[1..];
        assert NoEqualNeighbours(v) <==> NoEqualNeighbours(v[1..]) by {
          if NoEqualNeighbours(v[1..]) {
            forall i | 0 <= i < |v| - 1
              ensures v[i] != v[i + 1]
            {
              if i > 0 {
                assert v[i] == v[1..][i - 1];
                assert v[i + 1] == v[1..][i];
              }
            }
          }
          if NoEqualNeighbours(v) {
            forall i | 0 <= i < |v[1..]| - 1
              ensures v[1..][i] != v[1..][i + 1]
            {
              assert v[1..][i] == v[i + 1];
            }
          }
        }
      }
    }
  }

  /** Padding to the right only adds empty cells. */
  lemma {:induction false} OccupiedOfPadRight(vals: seq<int>, n: nat)
    requires |vals| <= n
    ensures Occupied(PadRight(vals, n)) == vals
    ensures LeftPacked(PadRight(vals, n))
    decreases n
  {
    var p := PadRight(vals, n);
    if n > 0 {
      if |vals| > 0 {
        assert p[1..] == PadRight(vals[1..], n - 1);
        OccupiedOfPadRight(vals[1..], n - 1);
        assert vals == [vals[0]] + vals[1..];
      } else {
        assert p[1..] == PadRight(vals, n - 1);
        OccupiedOfPadRight(vals, n - 1);
      }
    }
  }

  /** A left-packed row is its occupied values padded with empty cells. */
  lemma {:induction false} LeftPackedIsPadded(row: Row)
    requires LeftPacked(row)
    ensures PadRight(Occupied(row), |row|) == row
    decreases |row|
  {
    if |row| > 0 {
      var tail := row[1..];
      assert LeftPacked(tail) by {
        forall i, j | 0 <= i < j < |tail| && tail[i].None?
          ensures tail[j].None?
        {
          assert row[i + 1].None?;
        }
      }
      LeftPackedIsPadded(tail);
      var p := PadRight(Occupied(row), |row|);
      if row[0].Some? {
        assert Occupied(row) == [row[0].value] + Occupied(tail);
        assert p[1..] == PadRight(Occupied(tail), |tail|);
        assert p == [p[0]] + p[1..];
        assert row == [row[0]] + tail;
      } else {
        AllEmptyAfter(row);
        assert Occupied(row) == Occupied(tail);
        forall i | 0 <= i < |row|
          ensures p[i] == row[i]
        {
          OccupiedOfEmpties(row);
        }
      }
    }
  }

  lemma AllEmptyAfter(row: Row)
    requires LeftPacked(row) && |row| > 0 && row[0].None?
    ensures forall j :: 0 <= j < |row| ==> row[j].None?
  {
    forall j | 0 < j < |row|
      ensures row[j].None?
    {
      assert row[0].None?;
    }
  }

  lemma {:induction false} OccupiedOfEmpties(row: Row)
    requires forall j :: 0 <= j < |row| ==> row[j].None?
    ensures Occupied(row) == []
  {
    if |row| > 0 {
      OccupiedOfEmpties(row[1..]);
    }
  }

  /* ---------------- Properties of one row's slide ---------------- */

  /** The slid row keeps the row's length, holds its occupied cells first and
      only empty cells after them, and contains the merged values in order. */
  lemma SlidShape(row: Row)
    ensures |MoveRowLeft(row).result| == |row|
    ensures LeftPacked(MoveRowLeft(row).result)
    ensures Occupied(MoveRowLeft(row).result) == Merged(Occupied(row))
  {
    OccupiedOfPadRight(Merged(Occupied(row)), |row|);
  }

  /** Sliding keeps the sum of the tile values of the row. */
  lemma SlideKeepsRowSum(row: Row)
    ensures RowSum(MoveRowLeft(row).result) == RowSum(row)
  {
    SlidShape(row);
    MergedKeepsSum(Occupied(row));
    RowSumIsSumOfOccupied(row);
    RowSumIsSumOfOccupied(MoveRowLeft(row).result);
  }

  lemma {:induction false} RowSumIsSumOfOccupied(row: Row)
    ensures RowSum(row) == Sum(Occupied(row))
  {
    if |row| > 0 {
      RowSumIsSumOfOccupied(row[1..]);
      SumAppend(CellValues(row[0]), Occupied(row[1..]));
    }
  }

  /** The number of occupied cells drops by exactly the number of merges. */
  lemma SlideOccupiedCount(row: Row)
    ensures |Occupied(MoveRowLeft(row).result)| == |Occupied(row)| - MergeCount(Occupied(row))
  {
    SlidShape(row);
    MergedLength(Occupied(row));
  }

  /** A row does not move exactly when its tiles are already packed to the left
      and no two neighbouring tiles are equal; then the row comes back as it
      was, with score 0. */
  lemma NoMoveIff(row: Row)
    ensures !MoveRowLeft(row).isMoved <==> LeftPacked(row) && NoEqualNeighbours(Occupied(row))
    ensures !MoveRowLeft(row).isMoved ==> MoveRowLeft(row).result == row && MoveRowLeft(row).rowScore == 0
  {
    var r := MoveRowLeft(row);
    SlidShape(row);
    MergedIdentityIff(Occupied(row));
    if !r.isMoved {
      assert Merged(Occupied(row)) == Occupied(row);
      ScoreNeedsMerge(Occupied(row));
      MergedLength(Occupied(row));
    }
    if LeftPacked(row) && NoEqualNeighbours(Occupied(row)) {
      LeftPackedIsPadded(row);
    }
  }

  /** A row that earns a nonzero score has moved, whatever the tile values. */
  lemma ScoreImpliesMoved(row: Row)
    ensures MoveRowLeft(row).rowScore != 0 ==> MoveRowLeft(row).isMoved
  {
    ScoreNeedsMerge(Occupied(row));
    SlideOccupiedCount(row);
  }

  /** Single pass: four equal tiles become two doubled tiles, never one
      quadrupled tile, and the score is the two merged values. */
  lemma FourEqualTilesMergePairwise(x: int)
    ensures MoveRowLeft([Some(x), Some(x), Some(x), Some(x)])
            == RowMove([Some(2 * x), Some(2 * x), None, None], true, 4 * x)
  {
    var row := [Some(x), Some(x), Some(x), Some(x)];
    var r1 := [Some(x)];
    var r2 := [Some(x)] + r1;
    var r3 := [Some(x)] + r2;
    assert r3[1..] == r2 && r2[1..] == r1 && row[1..] == r3;
    assert Occupied(r1) == [x];
    assert Occupied(r2) == [x, x];
    assert Occupied(r3) == [x, x, x];
    assert Occupied(row) == [x, x, x, x];
    var v := [x, x, x, x];
    assert v[2..] == [x, x] && v[2..][2..] == [];
    assert Merged(v) == [2 * x, 2 * x];
    assert MergeScore([x, x]) == 2 * x;
    assert MergeScore(v) == 4 * x;
    assert MoveRowLeft(row).result[2] != row[2];
  }
}
