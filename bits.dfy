/**
 * Bit layout of a 2048 board (src/game.rs:13-19, 35-40, 233-257).
 *
 * A board is one 64-bit word. Nybble k (bits 4k..4k+3, k in 0..16) is one cell;
 * row i is the 16-bit slice at bits 16i..16i+15, so nybble k lies in row k / 4,
 * column k % 4. A cell holds the power of two of its tile, 0 meaning empty.
 *
 * The source keeps rows and cells in `u64` variables whose values are always
 * below 2^16 and 2^4; here they have the types `bv16` and `bv4`, which makes
 * those bounds part of the type.
 */
module Bits {

  /** Selects one 16-bit row (ROW_MASK, src/game.rs:15). */
  const ROW_MASK: bv64 := 0xFFFF

  /** One nybble at the bottom of each row (COL_MASK, src/game.rs:19). */
  const COL_MASK: bv64 := 0x000F_000F_000F_000F

  /**
   * Nybble k of a board, `(b >> 4k) & 0xF`. The index is a bit-vector so that
   * the shift stays a single bit-vector operation.
   */
  function Nybble(b: bv64, k: bv64): bv64
    requires k < 16
  {
    (b >> (4 * k)) & 0xF
  }

  /** Two boards are equal exactly when all sixteen cells are equal. */
  lemma NybbleExtensional(x: bv64, y: bv64)
    requires forall k: bv64 | k < 16 :: Nybble(x, k) == Nybble(y, k)
    ensures x == y
  {
    var d := x ^ y;
    forall k: bv64 | k < 16
      ensures Nybble(d, k) == 0
    {
      NybbleXor(x, y, k);
    }
    NybbleZero(d);
  }

  /** The only board with sixteen empty cells is 0. */
  lemma {:induction false} NybbleZero(d: bv64)
    requires forall k: bv64 | k < 16 :: Nybble(d, k) == 0
    ensures d == 0
  {
    assert Nybble(d, 0) == 0 && Nybble(d, 1) == 0 && Nybble(d, 2) == 0 && Nybble(d, 3) == 0;
    assert Nybble(d, 4) == 0 && Nybble(d, 5) == 0 && Nybble(d, 6) == 0 && Nybble(d, 7) == 0;
    assert Nybble(d, 8) == 0 && Nybble(d, 9) == 0 && Nybble(d, 10) == 0 && Nybble(d, 11) == 0;
    assert Nybble(d, 12) == 0 && Nybble(d, 13) == 0 && Nybble(d, 14) == 0 && Nybble(d, 15) == 0;
  }

  lemma NybbleXor(x: bv64, y: bv64, k: bv64)
    requires k < 16
    ensures Nybble(x ^ y, k) == Nybble(x, k) ^ Nybble(y, k)
  {
  }

  /** Row i of a board, `(b >> 16i) & ROW_MASK` (src/game.rs:340-343). */
  function RowOf(b: bv64, i: nat): bv16
    requires i < 4
  {
    match i
    case 0 => (b & ROW_MASK) as bv16
    case 1 => ((b >> 16) & ROW_MASK) as bv16
    case 2 => ((b >> 32) & ROW_MASK) as bv16
    case _ => ((b >> 48) & ROW_MASK) as bv16
  }

  /** The board whose rows, from bits 0..15 upwards, are r0, r1, r2, r3. */
  function FromRows(r0: bv16, r1: bv16, r2: bv16, r3: bv16): bv64 {
    (r0 as bv64) | ((r1 as bv64) << 16) | ((r2 as bv64) << 32) | ((r3 as bv64) << 48)
  }

  /** Splitting a board into rows and joining them again gives the board back. */
  lemma RowsRoundTrip(b: bv64)
    ensures FromRows(RowOf(b, 0), RowOf(b, 1), RowOf(b, 2), RowOf(b, 3)) == b
  {
  }

  /** Joining four rows and splitting the result gives the rows back. */
  lemma FromRowsRoundTrip(r0: bv16, r1: bv16, r2: bv16, r3: bv16)
    ensures RowOf(FromRows(r0, r1, r2, r3), 0) == r0
    ensures RowOf(FromRows(r0, r1, r2, r3), 1) == r1
    ensures RowOf(FromRows(r0, r1, r2, r3), 2) == r2
    ensures RowOf(FromRows(r0, r1, r2, r3), 3) == r3
  {
  }

  /** The four cells of a row, nybble 0 first (src/game.rs:61-66). */
  function RowCells(r: bv16): (c: seq<bv4>)
    ensures |c| == 4
  {
    [(r & 0xF) as bv4, ((r >> 4) & 0xF) as bv4, ((r >> 8) & 0xF) as bv4, ((r >> 12) & 0xF) as bv4]
  }

  /** Four cells packed into a row, the first one lowest (src/game.rs:114-117). */
  function Pack(c0: bv4, c1: bv4, c2: bv4, c3: bv4): bv16 {
    (c0 as bv16) | ((c1 as bv16) << 4) | ((c2 as bv16) << 8) | ((c3 as bv16) << 12)
  }

  function PackCells(c: seq<bv4>): bv16
    requires |c| == 4
  {
    Pack(c[0], c[1], c[2], c[3])
  }

  /** Splitting a row into cells and packing them again gives the row back. */
  lemma RowCellsPackCells(r: bv16)
    ensures PackCells(RowCells(r)) == r
  {
  }

  /** Packing four cells and splitting the row gives the cells back. */
  lemma PackCellsRowCells(c: seq<bv4>)
    requires |c| == 4
    ensures RowCells(PackCells(c)) == c
  {
    RowCellsPack(c[0], c[1], c[2], c[3]);
    assert c == [c[0], c[1], c[2], c[3]];
  }

  lemma RowCellsPack(c0: bv4, c1: bv4, c2: bv4, c3: bv4)
    ensures RowCells(Pack(c0, c1, c2, c3)) == [c0, c1, c2, c3]
  {
    PackCell0(c0, c1, c2, c3);
    PackCell1(c0, c1, c2, c3);
    PackCell2(c0, c1, c2, c3);
    PackCell3(c0, c1, c2, c3);
  }

  lemma PackCell0(c0: bv4, c1: bv4, c2: bv4, c3: bv4)
    ensures (Pack(c0, c1, c2, c3) & 0xF) as bv4 == c0
  {
  }

  lemma PackCell1(c0: bv4, c1: bv4, c2: bv4, c3: bv4)
    ensures ((Pack(c0, c1, c2, c3) >> 4) & 0xF) as bv4 == c1
  {
  }

  lemma PackCell2(c0: bv4, c1: bv4, c2: bv4, c3: bv4)
    ensures ((Pack(c0, c1, c2, c3) >> 8) & 0xF) as bv4 == c2
  {
  }

  lemma PackCell3(c0: bv4, c1: bv4, c2: bv4, c3: bv4)
    ensures ((Pack(c0, c1, c2, c3) >> 12) & 0xF) as bv4 == c3
  {
  }

  /** The nybble-reversed row, `rev_row` of src/game.rs:121-122: its cells in reverse order. */
  function Rev(r: bv16): (res: bv16)
    ensures RowCells(res) == [RowCells(r)[3], RowCells(r)[2], RowCells(r)[1], RowCells(r)[0]]
  {
    ((r >> 12) & 0x000F) | ((r >> 4) & 0x00F0) | ((r << 4) & 0x0F00) | ((r << 12) & 0xF000)
  }

  /**
   * The same expression evaluated on a 64-bit word holding a row, as the source
   * does, has no bits above 16 and agrees with Rev.
   */
  lemma RevAs64(r: bv16)
    ensures var x := r as bv64;
      ((x >> 12) & 0x000F) | ((x >> 4) & 0x00F0) | ((x << 4) & 0x0F00) | ((x << 12) & 0xF000)
      == Rev(r) as bv64
  {
  }

  /** Reversal is an involution, hence a bijection on the 65536 rows. */
  lemma RevInvolution(r: bv16)
    ensures Rev(Rev(r)) == r
  {
  }

  /**
   * `Moves::column_from` (src/game.rs:37-39): only the lowest nybble of each
   * row of its result can be non-zero.
   */
  function ColumnFrom(b: bv64): (c: bv64)
    ensures c & COL_MASK == c
  {
    (b | (b << 12) | (b << 24) | (b << 36)) & COL_MASK
  }

  /**
   * column_from puts cell k of a row at bits 16k..16k+3, that is at nybble 4k,
   * and leaves every other nybble zero.
   */
  lemma ColumnFromPlaces(x: bv16, k: bv64)
    requires k < 16
    ensures Nybble(ColumnFrom(x as bv64), k) == if k % 4 == 0 then Nybble(x as bv64, k / 4) else 0
  {
  }

  /** column_from distributes over XOR on rows. */
  lemma ColumnFromXor(x: bv16, y: bv16)
    ensures ColumnFrom((x ^ y) as bv64) == ColumnFrom(x as bv64) ^ ColumnFrom(y as bv64)
  {
  }

  /** `Game::transpose` (src/game.rs:245-257): the cells on the diagonal stay where they are. */
  function Transpose(board: bv64): (t: bv64)
    ensures t & 0xF000_0F00_00F0_000F == board & 0xF000_0F00_00F0_000F
  {
    var a1 := board & 0xF0F0_0F0F_F0F0_0F0F;
    var a2 := board & 0x0000_F0F0_0000_F0F0;
    var a3 := board & 0x0F0F_0000_0F0F_0000;
    var a := a1 | (a2 << 12) | (a3 >> 12);
    var b1 := a & 0xFF00_FF00_00FF_00FF;
    var b2 := a & 0x00FF_00FF_0000_0000;
    var b3 := a & 0x0000_0000_FF00_FF00;
    b1 | (b2 >> 24) | (b3 << 24)
  }

  /** Transposition sends the cell at row r, column c to row c, column r. */
  lemma TransposeCell(b: bv64, r: bv64, c: bv64)
    requires r < 4 && c < 4
    ensures Nybble(Transpose(b), 4 * c + r) == Nybble(b, 4 * r + c)
  {
  }

  /** Transposition is self-inverse. */
  lemma TransposeInvolution(b: bv64)
    ensures Transpose(Transpose(b)) == b
  {
  }

  /** The example of src/game.rs:238-243. */
  lemma TransposeExample()
    ensures Transpose(0xFEDC_BA98_7654_3210) == 0xFB73_EA62_D951_C840
  {
  }

  /** Transposition is a permutation of bits, so it distributes over XOR. */
  lemma TransposeXor(x: bv64, y: bv64)
    ensures Transpose(x ^ y) == Transpose(x) ^ Transpose(y)
  {
  }

  /**
   * Transposing a board whose only non-zero row is row i gives that row's
   * column_from shifted to column i: this is why the up and down tables
   * store column_from of the left and right deltas.
   */
  lemma TransposeOfRow(x: bv16)
    ensures Transpose(x as bv64) == ColumnFrom(x as bv64)
    ensures Transpose((x as bv64) << 16) == ColumnFrom(x as bv64) << 4
    ensures Transpose((x as bv64) << 32) == ColumnFrom(x as bv64) << 8
    ensures Transpose((x as bv64) << 48) == ColumnFrom(x as bv64) << 12
  {
    TransposeOfRow0(x);
    TransposeOfRow1(x);
    TransposeOfRow2(x);
    TransposeOfRow3(x);
  }

  lemma TransposeOfRow0(x: bv16)
    ensures Transpose(x as bv64) == ColumnFrom(x as bv64)
  {
  }

  lemma TransposeOfRow1(x: bv16)
    ensures Transpose((x as bv64) << 16) == ColumnFrom(x as bv64) << 4
  {
  }

  lemma TransposeOfRow2(x: bv16)
    ensures Transpose((x as bv64) << 32) == ColumnFrom(x as bv64) << 8
  {
  }

  lemma TransposeOfRow3(x: bv16)
    ensures Transpose((x as bv64) << 48) == ColumnFrom(x as bv64) << 12
  {
  }

  /*
   * Table indices. The source indexes its tables with `row as usize`; the
   * model's tables are sequences indexed by int, and these helpers relate a
   * 16-bit row to its index in both directions.
   */

  /** A row's index lies inside a table of 0x10000 entries. */
  lemma IndexBound(x: bv16)
    ensures x as int < 0x10000
  {
  }

  /** Different rows have different indices. */
  lemma IndexInjective(x: bv16, y: bv16)
    requires x as int == y as int
    ensures x == y
  {
    assert (x as int) as bv16 == x && (y as int) as bv16 == y;
  }

  lemma NybbleIndex(i: int)
    requires 0 <= i < 0x10
    ensures (i as bv4) as int == i
  {
  }

  lemma ByteIndex(h: bv4, l: bv4)
    ensures ((h as bv8 << 4) | l as bv8) as int == 16 * (h as int) + l as int
  {
  }

  lemma WordIndex(h: bv8, l: bv8)
    ensures ((h as bv16 << 8) | l as bv16) as int == 256 * (h as int) + l as int
  {
  }

  /** The byte whose index is i, assembled from its two nybbles. */
  function ByteOf(i: int): (b: bv8)
    requires 0 <= i < 0x100
    ensures b as int == i
  {
    NybbleIndex(i / 16);
    NybbleIndex(i % 16);
    ByteIndex((i / 16) as bv4, (i % 16) as bv4);
    ((i / 16) as bv4 as bv8 << 4) | (i % 16) as bv4 as bv8
  }

  /** The row whose index is i: the source's loop counter read as a 16-bit word. */
  function WordOf(i: int): (w: bv16)
    requires 0 <= i < 0x10000
    ensures w as int == i
  {
    WordIndex(ByteOf(i / 256), ByteOf(i % 256));
    (ByteOf(i / 256) as bv16 << 8) | ByteOf(i % 256) as bv16
  }

  /** The row with index i, characterised by its index alone. */
  ghost function RowAt(i: int): (w: bv16)
    requires 0 <= i < 0x10000
    ensures w as int == i
  {
    assert WordOf(i) as int == i;
    var w: bv16 :| w as int == i; w
  }
}
