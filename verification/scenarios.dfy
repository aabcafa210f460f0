/** The three cases of src/moveLeft.test.ts, stated about the model. */
module Scenarios {
  import opened Wrappers
  import opened Board
  import opened Merge
  import opened GameLogic

  /** An empty cell, as the tests write `null`. */
  const Empty: Tile := None

  /** The occupied values of a four-cell row, cell by cell. */
  lemma OccupiedOfFour(a: Tile, b: Tile, c: Tile, d: Tile)
    ensures Occupied([a, b, c, d]) == CellValues(a) + CellValues(b) + CellValues(c) + CellValues(d)
  {
    var r0: Row := [];
    assert Occupied([d]) == CellValues(d) by {
      OccupiedCons(d, r0);
      assert [d] == [d] + r0;
    }
    assert Occupied([c, d]) == CellValues(c) + CellValues(d) by {
      OccupiedCons(c, [d]);
      assert [c, d] == [c] + [d];
    }
    assert Occupied([b, c, d]) == CellValues(b) + (CellValues(c) + CellValues(d)) by {
      OccupiedCons(b, [c, d]);
      assert [b, c, d] == [b] + [c, d];
    }
    assert Occupied([a, b, c, d]) == CellValues(a) + (CellValues(b) + (CellValues(c) + CellValues(d))) by {
      OccupiedCons(a, [b, c, d]);
      assert [a, b, c, d] == [a] + [b, c, d];
    }
    Reassociate(CellValues(a), CellValues(b), CellValues(c), CellValues(d));
  }

  /** Sliding a four-cell row whose values are `vals`, in terms of the
      reference merge of `vals`. */
  lemma SlideFour(a: Tile, b: Tile, c: Tile, d: Tile, vals: seq<int>, merged: seq<int>, score: int)
    requires CellValues(a) + CellValues(b) + CellValues(c) + CellValues(d) == vals
    requires Merged(vals) == merged && MergeScore(vals) == score
    ensures MoveRowLeft([a, b, c, d]).result == PadRight(merged, 4)
    ensures MoveRowLeft([a, b, c, d]).rowScore == score
  {
    OccupiedOfFour(a, b, c, d);
  }

  /** The slid grid of a four-row grid is its four slid rows. */
  lemma ResultOfFourRows(a: Row, b: Row, c: Row, d: Row)
    ensures MoveLeft([a, b, c, d]).result == [MoveRowLeft(a).result, MoveRowLeft(b).result,
                                              MoveRowLeft(c).result, MoveRowLeft(d).result]
  {
    FourRowsSlide([a, b, c, d]);
  }

  /** Any grid of four rows slides to its four slid rows. */
  lemma FourRowsSlide(m: Grid)
    requires |m| == 4
    ensures MoveLeft(m).result == [MoveRowLeft(m[0]).result, MoveRowLeft(m[1]).result,
                                   MoveRowLeft(m[2]).result, MoveRowLeft(m[3]).result]
  {
    SlidRow(m, 0);
    SlidRow(m, 1);
    SlidRow(m, 2);
    SlidRow(m, 3);
    FourElements(MoveLeft(m).result, Slide(m[0]), Slide(m[1]), Slide(m[2]), Slide(m[3]));
  }

  /** A sequence of length four is the display of its four elements. */
  lemma FourElements<T>(r: seq<T>, x0: T, x1: T, x2: T, x3: T)
    requires |r| == 4 && r[0] == x0 && r[1] == x1 && r[2] == x2 && r[3] == x3
    ensures r == [x0, x1, x2, x3]
  {
  }

  /** The score of a four-row grid is the sum of its row scores. */
  lemma ScoreOfFourRows(a: Row, b: Row, c: Row, d: Row)
    ensures MoveLeft([a, b, c, d]).score == MoveRowLeft(a).rowScore + MoveRowLeft(b).rowScore
                                            + MoveRowLeft(c).rowScore + MoveRowLeft(d).rowScore
  {
    var e: Grid := [];
    assert GridMergeScore([d]) == MergeScore(Occupied(d)) by {
      assert [d][1..] == e;
    }
    assert GridMergeScore([c, d]) == MergeScore(Occupied(c)) + GridMergeScore([d]) by {
      assert [c, d][1..] == [d];
    }
    assert GridMergeScore([b, c, d]) == MergeScore(Occupied(b)) + GridMergeScore([c, d]) by {
      assert [b, c, d][1..] == [c, d];
    }
    assert GridMergeScore([a, b, c, d]) == MergeScore(Occupied(a)) + GridMergeScore([b, c, d]) by {
      assert [a, b, c, d][1..] == [b, c, d];
    }
  }

  lemma Reassociate<T>(a: seq<T>, b: seq<T>, c: seq<T>, d: seq<T>)
    ensures a + (b + (c + d)) == a + b + c + d
  {
  }

  lemma PadFour(vals: seq<int>)
    requires |vals| <= 4
    ensures PadRight(vals, 4) == [if 0 < |vals| then Some(vals[0]) else Empty,
                                  if 1 < |vals| then Some(vals[1]) else Empty,
                                  if 2 < |vals| then Some(vals[2]) else Empty,
                                  if 3 < |vals| then Some(vals[3]) else Empty]
  {
  }

  lemma MergeThree(x: int)
    ensures Merged([x, x, x]) == [2 * x, x] && MergeScore([x, x, x]) == 2 * x
  {
    assert [x, x, x][2..] == [x];
  }

  lemma MergeDistinct()
    ensures Merged([2, 4, 8, 16]) == [2, 4, 8, 16] && MergeScore([2, 4, 8, 16]) == 0
  {
    var v: seq<int> := [2, 4, 8, 16];
    assert v[1..] == [4, 8, 16] && v[1..][1..] == [8, 16] && v[1..][1..][1..] == [16];
  }

  /** A pair and a gap: `[2, 2, _, _]` becomes `[4, _, _, _]` for 4 points. */
  lemma PairAtFront()
    ensures MoveRowLeft([Some(2), Some(2), Empty, Empty]) == RowMove([Some(4), Empty, Empty, Empty], true, 4)
  {
    MergedPair(2, []);
    assert [2, 2] + [] == [2, 2];
    SlideFour(Some(2), Some(2), Empty, Empty, [2, 2], [4], 4);
    PadFour([4]);
  }

  /** Three equal tiles: the left two merge, the third follows. */
  lemma ThreeFours()
    ensures MoveRowLeft([Some(4), Some(4), Empty, Some(4)]) == RowMove([Some(8), Some(4), Empty, Empty], true, 8)
  {
    MergeThree(4);
    SlideFour(Some(4), Some(4), Empty, Some(4), [4, 4, 4], [8, 4], 8);
    PadFour([8, 4]);
  }

  lemma PairAtBack()
    ensures MoveRowLeft([Empty, Empty, Some(2), Some(2)]) == RowMove([Some(4), Empty, Empty, Empty], true, 4)
  {
    MergedPair(2, []);
    assert [2, 2] + [] == [2, 2];
    SlideFour(Empty, Empty, Some(2), Some(2), [2, 2], [4], 4);
    PadFour([4]);
  }

  /** Equal tiles merge across a gap. */
  lemma PairAcrossGap()
    ensures MoveRowLeft([Some(2), Empty, Empty, Some(2)]) == RowMove([Some(4), Empty, Empty, Empty], true, 4)
  {
    MergedPair(2, []);
    assert [2, 2] + [] == [2, 2];
    SlideFour(Some(2), Empty, Empty, Some(2), [2, 2], [4], 4);
    PadFour([4]);
  }

  lemma DistinctRowStays()
    ensures MoveRowLeft([Some(2), Some(4), Some(8), Some(16)])
            == RowMove([Some(2), Some(4), Some(8), Some(16)], false, 0)
  {
    MergeDistinct();
    SlideFour(Some(2), Some(4), Some(8), Some(16), [2, 4, 8, 16], [2, 4, 8, 16], 0);
    PadFour([2, 4, 8, 16]);
  }

  lemma EmptyRowStays()
    ensures MoveRowLeft([Empty, Empty, Empty, Empty]) == RowMove([Empty, Empty, Empty, Empty], false, 0)
  {
    SlideFour(Empty, Empty, Empty, Empty, [], [], 0);
    PadFour([]);
  }

  /** First case: pairs merge, a gap closes, and the merges score 20. */
  lemma MovesAndMerges()
    ensures MoveLeft([[Some(2), Some(2), Empty, Empty],
                      [Some(4), Some(4), Empty, Some(4)],
                      [Empty, Empty, Some(2), Some(2)],
                      [Some(2), Empty, Empty, Some(2)]])
            == MoveResult([[Some(4), Empty, Empty, Empty],
                           [Some(8), Some(4), Empty, Empty],
                           [Some(4), Empty, Empty, Empty],
                           [Some(4), Empty, Empty, Empty]], true, 20)
  {
    PairAtFront();
    ThreeFours();
    PairAtBack();
    PairAcrossGap();
    var a, b, c, d := [Some(2), Some(2), Empty, Empty], [Some(4), Some(4), Empty, Some(4)],
                      [Empty, Empty, Some(2), Some(2)], [Some(2), Empty, Empty, Some(2)];
    ResultOfFourRows(a, b, c, d);
    ScoreOfFourRows(a, b, c, d);
    assert MoveLeft([a, b, c, d]).result[0] != a;
  }

  /** Second case: rows of distinct values cannot move and score nothing. */
  lemma NothingToMove()
    ensures MoveLeft([[Some(2), Some(4), Some(8), Some(16)],
                      [Some(2), Some(4), Some(8), Some(16)],
                      [Some(2), Some(4), Some(8), Some(16)],
                      [Some(2), Some(4), Some(8), Some(16)]])
            == MoveResult([[Some(2), Some(4), Some(8), Some(16)],
                           [Some(2), Some(4), Some(8), Some(16)],
                           [Some(2), Some(4), Some(8), Some(16)],
                           [Some(2), Some(4), Some(8), Some(16)]], false, 0)
  {
    var row: Row := [Some(2), Some(4), Some(8), Some(16)];
    DistinctRowStays();
    ResultOfFourRows(row, row, row, row);
    ScoreOfFourRows(row, row, row, row);
  }

  /** Third case: empty rows stay empty and only the last row merges. */
  lemma EmptyRowsStay()
    ensures MoveLeft([[Empty, Empty, Empty, Empty],
                      [Empty, Empty, Empty, Empty],
                      [Empty, Empty, Empty, Empty],
                      [Some(2), Some(2), Empty, Empty]])
            == MoveResult([[Empty, Empty, Empty, Empty],
                           [Empty, Empty, Empty, Empty],
                           [Empty, Empty, Empty, Empty],
                           [Some(4), Empty, Empty, Empty]], true, 4)
  {
    var blank: Row := [Empty, Empty, Empty, Empty];
    EmptyRowStays();
    PairAtFront();
    var last: Row := [Some(2), Some(2), Empty, Empty];
    ResultOfFourRows(blank, blank, blank, last);
    ScoreOfFourRows(blank, blank, blank, last);
    assert MoveLeft([blank, blank, blank, last]).result[3] != last;
  }
}
