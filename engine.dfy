/**
 * The board operations of the game: the four movers, which XOR four table
 * lookups into the board, the empty-cell counter and the score
 * (src/game.rs:233-413).
 */
module Engine {
  import opened Bits
  import opened Rows
  import opened Tables

  /** The four moves a player can ask for. */
  datatype Direction = Left | Right | Up | Down

  /** Four row deltas XORed into a board at rows 0 to 3. */
  function XorRows(board: bv64, e0: bv64, e1: bv64, e2: bv64, e3: bv64): bv64 {
    board ^ e0 ^ (e1 << 16) ^ (e2 << 32) ^ (e3 << 48)
  }

  /** Four column deltas XORed into a board at columns 0 to 3. */
  function XorColumns(board: bv64, e0: bv64, e1: bv64, e2: bv64, e3: bv64): bv64 {
    board ^ e0 ^ (e1 << 4) ^ (e2 << 8) ^ (e3 << 12)
  }

  /** XORing row i's delta towards s_i into row i turns the board into the rows s_0..s_3. */
  lemma XorRowsSlide(b: bv64, s0: bv16, s1: bv16, s2: bv16, s3: bv16)
    ensures XorRows(b, RowDelta(RowOf(b, 0), s0), RowDelta(RowOf(b, 1), s1),
                    RowDelta(RowOf(b, 2), s2), RowDelta(RowOf(b, 3), s3))
            == FromRows(s0, s1, s2, s3)
  {
  }

  /**
   * XORing the column delta of row i of the transposed board into column i
   * gives the transpose of the board made of the new rows.
   */
  lemma XorColumnsSlide(b: bv64, s0: bv16, s1: bv16, s2: bv16, s3: bv16)
    ensures var t := Transpose(b);
      XorColumns(b, ColumnDelta(RowOf(t, 0), s0), ColumnDelta(RowOf(t, 1), s1),
                 ColumnDelta(RowOf(t, 2), s2), ColumnDelta(RowOf(t, 3), s3))
      == Transpose(FromRows(s0, s1, s2, s3))
  {
  }

  /** Moving right replaces every row by its slide towards nybble 0. */
  function MoveRight(m: Moves, board: bv64): (res: bv64)
    requires Valid(m)
    ensures res == FromRows(SlideRow(RowOf(board, 0)), SlideRow(RowOf(board, 1)),
                            SlideRow(RowOf(board, 2)), SlideRow(RowOf(board, 3)))
  {
    var r0, r1, r2, r3 := RowOf(board, 0), RowOf(board, 1), RowOf(board, 2), RowOf(board, 3);
    LookupRight(m, r0); LookupRight(m, r1); LookupRight(m, r2); LookupRight(m, r3);
    XorRowsSlide(board, SlideRow(r0), SlideRow(r1), SlideRow(r2), SlideRow(r3));
    XorRows(board, m.right[r0 as int], m.right[r1 as int], m.right[r2 as int], m.right[r3 as int])
  }

  /** Moving left replaces every row by its slide towards nybble 3. */
  function MoveLeft(m: Moves, board: bv64): (res: bv64)
    requires Valid(m)
    ensures res == FromRows(SlideRowBack(RowOf(board, 0)), SlideRowBack(RowOf(board, 1)),
                            SlideRowBack(RowOf(board, 2)), SlideRowBack(RowOf(board, 3)))
  {
    var r0, r1, r2, r3 := RowOf(board, 0), RowOf(board, 1), RowOf(board, 2), RowOf(board, 3);
    LookupLeft(m, r0); LookupLeft(m, r1); LookupLeft(m, r2); LookupLeft(m, r3);
    XorRowsSlide(board, SlideRowBack(r0), SlideRowBack(r1), SlideRowBack(r2), SlideRowBack(r3));
    XorRows(board, m.left[r0 as int], m.left[r1 as int], m.left[r2 as int], m.left[r3 as int])
  }

  /** Moving up is moving the transposed board left. */
  function MoveUp(m: Moves, board: bv64): (res: bv64)
    requires Valid(m)
    ensures res == Transpose(MoveLeft(m, Transpose(board)))
  {
    var t := Transpose(board);
    var r0, r1, r2, r3 := RowOf(t, 0), RowOf(t, 1), RowOf(t, 2), RowOf(t, 3);
    LookupUp(m, r0); LookupUp(m, r1); LookupUp(m, r2); LookupUp(m, r3);
    XorColumnsSlide(board, SlideRowBack(r0), SlideRowBack(r1), SlideRowBack(r2), SlideRowBack(r3));
    XorColumns(board, m.up[r0 as int], m.up[r1 as int], m.up[r2 as int], m.up[r3 as int])
  }

  /** Moving down is moving the transposed board right. */
  function MoveDown(m: Moves, board: bv64): (res: bv64)
    requires Valid(m)
    ensures res == Transpose(MoveRight(m, Transpose(board)))
  {
    var t := Transpose(board);
    var r0, r1, r2, r3 := RowOf(t, 0), RowOf(t, 1), RowOf(t, 2), RowOf(t, 3);
    LookupDown(m, r0); LookupDown(m, r1); LookupDown(m, r2); LookupDown(m, r3);
    XorColumnsSlide(board, SlideRow(r0), SlideRow(r1), SlideRow(r2), SlideRow(r3));
    XorColumns(board, m.down[r0 as int], m.down[r1 as int], m.down[r2 as int], m.down[r3 as int])
  }

  /**
   * The move a direction selects (the match in src/game.rs:215-220): left and
   * right slide every row, up and down every column.
   */
  function Move(m: Moves, board: bv64, d: Direction): (res: bv64)
    requires Valid(m)
    ensures res == match d
      case Right => FromRows(SlideRow(RowOf(board, 0)), SlideRow(RowOf(board, 1)),
                             SlideRow(RowOf(board, 2)), SlideRow(RowOf(board, 3)))
      case Left => FromRows(SlideRowBack(RowOf(board, 0)), SlideRowBack(RowOf(board, 1)),
                            SlideRowBack(RowOf(board, 2)), SlideRowBack(RowOf(board, 3)))
      case Up => Transpose(MoveLeft(m, Transpose(board)))
      case Down => Transpose(MoveRight(m, Transpose(board)))
  {
    match d
    case Left => MoveLeft(m, board)
    case Right => MoveRight(m, board)
    case Down => MoveDown(m, board)
    case Up => MoveUp(m, board)
  }

  /** After a right move, every row holds the slide of the same row and nothing else. */
  lemma MoveRightRows(m: Moves, board: bv64)
    requires Valid(m)
    ensures RowOf(MoveRight(m, board), 0) == SlideRow(RowOf(board, 0))
    ensures RowOf(MoveRight(m, board), 1) == SlideRow(RowOf(board, 1))
    ensures RowOf(MoveRight(m, board), 2) == SlideRow(RowOf(board, 2))
    ensures RowOf(MoveRight(m, board), 3) == SlideRow(RowOf(board, 3))
  {
    FromRowsRoundTrip(SlideRow(RowOf(board, 0)), SlideRow(RowOf(board, 1)),
                      SlideRow(RowOf(board, 2)), SlideRow(RowOf(board, 3)));
  }

  /** After a left move, every row holds the reversed slide of the same row reversed. */
  lemma MoveLeftRows(m: Moves, board: bv64)
    requires Valid(m)
    ensures RowOf(MoveLeft(m, board), 0) == Rev(SlideRow(Rev(RowOf(board, 0))))
    ensures RowOf(MoveLeft(m, board), 1) == Rev(SlideRow(Rev(RowOf(board, 1))))
    ensures RowOf(MoveLeft(m, board), 2) == Rev(SlideRow(Rev(RowOf(board, 2))))
    ensures RowOf(MoveLeft(m, board), 3) == Rev(SlideRow(Rev(RowOf(board, 3))))
  {
    FromRowsRoundTrip(SlideRowBack(RowOf(board, 0)), SlideRowBack(RowOf(board, 1)),
                      SlideRowBack(RowOf(board, 2)), SlideRowBack(RowOf(board, 3)));
  }

  // ---- the examples in the doc comments ----

  lemma MoveRightExample(m: Moves)
    requires Valid(m)
    ensures MoveRight(m, 0x2211) == 0x0032
  {
    SlideRowExamples();
  }

  lemma MoveLeftExample(m: Moves)
    requires Valid(m)
    ensures MoveLeft(m, 0x2211) == 0x3200
    ensures MoveLeft(m, 0x0000_0000_0022_1100) == 0x0000_0000_3000_2000
  {
    SlideRowExamples();
  }

  lemma MoveUpExample(m: Moves)
    requires Valid(m)
    ensures MoveUp(m, 0x0011) == 0x0011_0000_0000_0000
  {
    assert Transpose(0x0011) == 0x0000_0000_0001_0001;
    SlideRowExamples();
    assert Transpose(0x0000_0000_1000_1000) == 0x0011_0000_0000_0000;
  }

  lemma MoveDownExample(m: Moves)
    requires Valid(m)
    ensures MoveDown(m, 0x0011_0000_0000_0011) == 0x0022
  {
    assert Transpose(0x0011_0000_0000_0011) == 0x0000_0000_1001_1001;
    SlideRowExamples();
    assert Transpose(0x0000_0000_0002_0002) == 0x0022;
  }

  // ---- empty cells (src/game.rs:380-399) ----

  /**
   * Cell k of a board, `(board >> (k * 4)) & 0xF` as the source reads it.
   * Cell indices are bv8 values so that stepping through them stays small
   * bit-vector arithmetic.
   */
  function Cell(b: bv64, k: bv8): bv64
    requires k < 16
  {
    (b >> (k * 4)) & 0xF
  }

  /** Cell k is nybble k. */
  lemma CellIsNybble(b: bv64, k: bv64)
    requires k < 16
    ensures Cell(b, k as bv8) == Nybble(b, k)
  {
  }

  /** The number of empty cells among cells k to 15. */
  ghost function EmptyFrom(b: bv64, k: bv8): nat
    requires k <= 16
    decreases 16 - k, b
  {
    if k == 16 then 0 else (if Cell(b, k) == 0 then 1 else 0) + EmptyFrom(b, k + 1)
  }

  /** Counts the empty cells of the board, the loop of src/game.rs:389-399. */
  method CountEmpty(board: bv64) returns (empty: nat)
    ensures empty == EmptyFrom(board, 0)
  {
    empty := 0;
    var i: bv8 := 0;
    while i < 16
      invariant i <= 16
      invariant empty + EmptyFrom(board, i) == EmptyFrom(board, 0)
    {
      if (board >> (i * 4)) & 0xF == 0 {
        empty := empty + 1;
      }
      i := i + 1;
    }
  }

  /** Cells k to 15 hold at most 16 - k empty cells. */
  lemma {:induction false} EmptyFromBound(b: bv64, k: bv8)
    requires k <= 16
    ensures EmptyFrom(b, k) <= 16 - k as int
    decreases 16 - k
  {
    if k < 16 {
      EmptyFromBound(b, k + 1);
    }
  }

  /** When cells k to 15 are all empty, each of them is 0. */
  lemma {:induction false} AllEmpty(b: bv64, k: bv8)
    requires k <= 16 && EmptyFrom(b, k) == 16 - k as int
    ensures forall j: bv8 | k <= j < 16 :: Cell(b, j) == 0
    decreases 16 - k
  {
    if k < 16 {
      EmptyFromBound(b, k + 1);
      AllEmpty(b, k + 1);
    }
  }

  /** In the empty board every cell is empty. */
  lemma {:induction false} EmptyOfZero(k: bv8)
    requires k <= 16
    ensures EmptyFrom(0, k) == 16 - k as int
    decreases 16 - k
  {
    if k < 16 {
      EmptyOfZero(k + 1);
    }
  }

  /** A board has between 0 and 16 empty cells, and 16 exactly when it is 0. */
  lemma EmptyBound(b: bv64)
    ensures EmptyFrom(b, 0) <= 16
    ensures EmptyFrom(b, 0) == 16 <==> b == 0
  {
    EmptyFromBound(b, 0);
    if EmptyFrom(b, 0) == 16 {
      AllEmpty(b, 0);
      forall k: bv64 | k < 16
        ensures Nybble(b, k) == 0
      {
        CellIsNybble(b, k);
      }
      NybbleZero(b);
    } else {
      EmptyOfZero(0);
    }
  }

  /** Two boards that agree on cells k to 15 have as many empty cells there. */
  lemma {:induction false} EmptySame(x: bv64, y: bv64, k: bv8)
    requires k <= 16
    requires forall j: bv8 | k <= j < 16 :: Cell(x, j) == Cell(y, j)
    ensures EmptyFrom(x, k) == EmptyFrom(y, k)
    decreases 16 - k
  {
    if k < 16 {
      EmptySame(x, y, k + 1);
    }
  }

  lemma CountEmptyExample()
    ensures EmptyFrom(0x2211, 0) == 12
  {
    EmptyOfZero(4);
    assert forall k: bv8 | 4 <= k < 16 :: Cell(0x2211, k) == Cell(0, k);
    EmptySame(0x2211, 0, 4);
  }

  // ---- score (src/game.rs:401-413) ----

  /** The sixteen cells of a board, row 0 first and nybble 0 first within a row. */
  function BoardCells(b: bv64): (c: seq<bv4>)
    ensures |c| == 16
  {
    RowCells(RowOf(b, 0)) + RowCells(RowOf(b, 1)) + RowCells(RowOf(b, 2)) + RowCells(RowOf(b, 3))
  }

  /**
   * `table_helper` (src/game.rs:402-407): the masked shifts of the board pick
   * out its four rows, and the result is the sum of their entries.
   */
  function TableHelper(board: bv64, table: seq<nat>): (s: nat)
    requires |table| == 0x10000
    ensures s == table[RowOf(board, 0) as int] + table[RowOf(board, 1) as int]
               + table[RowOf(board, 2) as int] + table[RowOf(board, 3) as int]
  {
    var r0, r1, r2, r3 := (board & ROW_MASK) as bv16, ((board >> 16) & ROW_MASK) as bv16,
                          ((board >> 32) & ROW_MASK) as bv16, ((board >> 48) & ROW_MASK) as bv16;
    IndexBound(r0); IndexBound(r1); IndexBound(r2); IndexBound(r3);
    table[r0 as int] + table[r1 as int] + table[r2 as int] + table[r3 as int]
  }

  /** The entry of a table of the `Moves` layout at the key of row r. */
  function Entry(table: seq<nat>, r: bv16): nat
    requires |table| == 0x10000
  {
    IndexBound(r);
    table[r as int]
  }

  /**
   * `table_helper` looks up each row in its own place: on the board joined
   * from rows r0..r3 it returns the sum of those four rows' entries.
   */
  lemma TableHelperFromRows(r0: bv16, r1: bv16, r2: bv16, r3: bv16, table: seq<nat>)
    requires |table| == 0x10000
    ensures TableHelper(FromRows(r0, r1, r2, r3), table)
            == Entry(table, r0) + Entry(table, r1) + Entry(table, r2) + Entry(table, r3)
  {
    FromRowsRoundTrip(r0, r1, r2, r3);
  }

  /** The board's score is the sum of the scores of all its cells. */
  function Score(m: Moves, board: bv64): (s: nat)
    requires Valid(m)
    ensures s == CellsScore(BoardCells(board))
  {
    var r0, r1, r2, r3 := RowOf(board, 0), RowOf(board, 1), RowOf(board, 2), RowOf(board, 3);
    LookupScore(m, r0); LookupScore(m, r1); LookupScore(m, r2); LookupScore(m, r3);
    CellsScoreConcat(RowCells(r0) + RowCells(r1) + RowCells(r2), RowCells(r3));
    CellsScoreConcat(RowCells(r0) + RowCells(r1), RowCells(r2));
    CellsScoreConcat(RowCells(r0), RowCells(r1));
    TableHelper(board, m.scores)
  }

  /** A score always fits the source's u64 result. */
  lemma ScoreBound(m: Moves, board: bv64)
    requires Valid(m)
    ensures Score(m, board) < 0x1_0000_0000_0000_0000
  {
    CellsScoreBound(BoardCells(board));
  }
}
