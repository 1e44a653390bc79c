/**
 * The precomputed move and score tables (`Moves` and `MOVES`,
 * src/game.rs:21-135).
 *
 * For every 16-bit row the source slides the row toward cell 0 and stores the
 * XOR of the row and its result, so that a move is four lookups XOR-ed into
 * the board. Right and down entries are keyed by the row itself; left and up
 * entries by the nybble-reversed row, with the reversed result.
 */
module Tables {
  import opened Bits
  import opened Rows

  /** A row after sliding toward cell 0: the `result` of src/game.rs:114-117. */
  function SlideRow(r: bv16): (res: bv16)
    ensures RowCells(res) == Slide(RowCells(r))
  {
    PackCellsRowCells(Slide(RowCells(r)));
    PackCells(Slide(RowCells(r)))
  }

  /** A row after sliding toward cell 3, i.e. reversed, slid and reversed back. */
  function SlideRowBack(r: bv16): bv16 {
    Rev(SlideRow(Rev(r)))
  }

  /** A row slides to res when its cells, less the empty ones, merge into res's cells. */
  lemma SlidesTo(r: bv16, c: seq<bv4>, nz: seq<bv4>, res: bv16)
    requires RowCells(r) == c && NonZeros(c) == nz && RowCells(res) == Pad(Merge(nz), 4)
    ensures SlideRow(r) == res
  {
    RowCellsPackCells(res);
  }

  lemma Slides0000()
    ensures SlideRow(0x0000) == 0x0000
  {
    SlidesTo(0x0000, [0, 0, 0, 0], [], 0x0000);
  }

  lemma Slides2211()
    ensures SlideRow(0x2211) == 0x0032
  {
    SlidesTo(0x2211, [1, 1, 2, 2], [1, 1, 2, 2], 0x0032);
  }

  lemma Slides1001()
    ensures SlideRow(0x1001) == 0x0002
  {
    SlidesTo(0x1001, [1, 0, 0, 1], [1, 1], 0x0002);
  }

  lemma Slides1122()
    ensures SlideRow(0x1122) == 0x0023
  {
    SlidesTo(0x1122, [2, 2, 1, 1], [2, 2, 1, 1], 0x0023);
  }

  lemma Slides0011()
    ensures SlideRow(0x0011) == 0x0002
  {
    SlidesTo(0x0011, [1, 1, 0, 0], [1, 1], 0x0002);
  }

  lemma Slides2200()
    ensures SlideRow(0x2200) == 0x0003
  {
    SlidesTo(0x2200, [0, 0, 2, 2], [2, 2], 0x0003);
  }

  lemma Slides1100()
    ensures SlideRow(0x1100) == 0x0002
  {
    SlidesTo(0x1100, [0, 0, 1, 1], [1, 1], 0x0002);
  }

  lemma Slides1000()
    ensures SlideRow(0x1000) == 0x0001
  {
    SlidesTo(0x1000, [0, 0, 0, 1], [1], 0x0001);
  }

  /**
   * The rows of the table's own doc comment (right: 0x0011 -> 0x0002, left:
   * 0x0011 -> 0x2000) and those met in the doc-comment examples of the
   * movers, slid both ways.
   */
  lemma SlideRowExamples()
    ensures SlideRow(0x0011) == 0x0002 && SlideRowBack(0x0011) == 0x2000
    ensures SlideRow(0x0000) == 0x0000 && SlideRow(0x2211) == 0x0032 && SlideRow(0x1001) == 0x0002
    ensures SlideRowBack(0x0000) == 0x0000 && SlideRowBack(0x2211) == 0x3200
    ensures SlideRowBack(0x1100) == 0x2000 && SlideRowBack(0x0022) == 0x3000
    ensures SlideRowBack(0x0001) == 0x1000
  {
    Slides0000(); Slides2211(); Slides1001(); Slides1122(); Slides0011(); Slides2200(); Slides1100(); Slides1000();
  }

  /** A row entry: the row XOR-ed with what it becomes (src/game.rs:128-129). */
  function RowDelta(row: bv16, res: bv16): bv64 {
    (row ^ res) as bv64
  }

  /** A column entry: both rows spread over a column and XOR-ed (src/game.rs:130-131). */
  function ColumnDelta(row: bv16, res: bv16): bv64 {
    ColumnFrom(row as bv64) ^ ColumnFrom(res as bv64)
  }

  /**
   * The comment of src/game.rs:49-50 gives rows 0x0002 and 0x0003 the scores
   * 4 and 16 (MergeTotal, the tile plus its intermediate merges); the table
   * holds 8 and 32.
   */
  lemma ScoreCommentExamples()
    ensures MergeTotal(2) == 4 && MergeTotal(3) == 16
    ensures RowScore(0x0002) == 8 && RowScore(0x0003) == 32
  {
    ScoreOfFirst(2);
    ScoreOfFirst(3);
  }

  /** A row holding a single tile t in its first cell scores that tile's score. */
  lemma ScoreOfFirst(t: bv4)
    ensures RowScore(t as bv16) == CellScore(t)
  {
    var c := RowCells(t as bv16);
    assert c == [t, 0, 0, 0];
    CellsScoreConcat([t], [0, 0, 0]);
    CellsScoreOne(t);
    assert [0, 0, 0] == [0, 0] + [0];
    CellsScoreConcat([0, 0], [0]);
    assert [0, 0] == [0] + [0];
    CellsScoreConcat([0], [0]);
    CellsScoreOne(0);
    assert c == [t] + [0, 0, 0];
  }

  /** The right entry for row r (src/game.rs:128). */
  function RightEntry(r: bv16): bv64 {
    RowDelta(r, SlideRow(r))
  }

  /** The left entry stored under x, the reversal of some row (src/game.rs:129). */
  function LeftEntry(x: bv16): bv64 {
    RowDelta(x, SlideRowBack(x))
  }

  /** The up entry stored under x (src/game.rs:130). */
  function UpEntry(x: bv16): bv64 {
    ColumnDelta(x, SlideRowBack(x))
  }

  /** The down entry for row r (src/game.rs:131). */
  function DownEntry(r: bv16): bv64 {
    ColumnDelta(r, SlideRow(r))
  }

  /** The score entry for row r (src/game.rs:69-75). */
  function RowScore(r: bv16): nat {
    CellsScore(RowCells(r))
  }

  /** The five tables of `struct Moves` (src/game.rs:27-33). */
  datatype Moves = Moves(left: seq<bv64>, right: seq<bv64>, down: seq<bv64>, up: seq<bv64>,
                         scores: seq<nat>)

  /** The entries for the row whose index is i, one function per table. */
  ghost function RightAt(i: int): bv64 {
    if 0 <= i < 0x10000 then RightEntry(RowAt(i)) else 0
  }

  ghost function DownAt(i: int): bv64 {
    if 0 <= i < 0x10000 then DownEntry(RowAt(i)) else 0
  }

  ghost function ScoreAt(i: int): nat {
    if 0 <= i < 0x10000 then RowScore(RowAt(i)) else 0
  }

  ghost function LeftAt(i: int): bv64 {
    if 0 <= i < 0x10000 then LeftEntry(RowAt(i)) else 0
  }

  ghost function UpAt(i: int): bv64 {
    if 0 <= i < 0x10000 then UpEntry(RowAt(i)) else 0
  }

  /** Every table has one entry per row. */
  ghost predicate Sized(m: Moves) {
    |m.left| == 0x10000 && |m.right| == 0x10000 && |m.down| == 0x10000 && |m.up| == 0x10000
    && |m.scores| == 0x10000
  }

  /**
   * Every table has one entry per row, and the entry at index i is the one the
   * builder computes for the row whose index is i.
   */
  ghost predicate Valid(m: Moves) {
    Sized(m)
    && (forall i :: 0 <= i < 0x10000 ==> m.right[i] == RightAt(i))
    && (forall i :: 0 <= i < 0x10000 ==> m.down[i] == DownAt(i))
    && (forall i :: 0 <= i < 0x10000 ==> m.scores[i] == ScoreAt(i))
    && (forall i :: 0 <= i < 0x10000 ==> m.left[i] == LeftAt(i))
    && (forall i :: 0 <= i < 0x10000 ==> m.up[i] == UpAt(i))
  }

  /** The right entry a lookup of row r reads. */
  lemma LookupRight(m: Moves, r: bv16)
    requires Valid(m)
    ensures |m.right| == 0x10000 && r as int < 0x10000
    ensures m.right[r as int] == RightEntry(r)
  {
    IndexBound(r);
    IndexInjective(RowAt(r as int), r);
  }

  /** The left entry a lookup of row r reads. */
  lemma LookupLeft(m: Moves, r: bv16)
    requires Valid(m)
    ensures |m.left| == 0x10000 && r as int < 0x10000
    ensures m.left[r as int] == LeftEntry(r)
  {
    IndexBound(r);
    IndexInjective(RowAt(r as int), r);
  }

  /** The up entry a lookup of row r reads. */
  lemma LookupUp(m: Moves, r: bv16)
    requires Valid(m)
    ensures |m.up| == 0x10000 && r as int < 0x10000
    ensures m.up[r as int] == UpEntry(r)
  {
    IndexBound(r);
    IndexInjective(RowAt(r as int), r);
  }

  /** The down entry a lookup of row r reads. */
  lemma LookupDown(m: Moves, r: bv16)
    requires Valid(m)
    ensures |m.down| == 0x10000 && r as int < 0x10000
    ensures m.down[r as int] == DownEntry(r)
  {
    IndexBound(r);
    IndexInjective(RowAt(r as int), r);
  }

  /** The scores entry a lookup of row r reads. */
  lemma LookupScore(m: Moves, r: bv16)
    requires Valid(m)
    ensures |m.scores| == 0x10000 && r as int < 0x10000
    ensures m.scores[r as int] == RowScore(r)
  {
    IndexBound(r);
    IndexInjective(RowAt(r as int), r);
  }

  /**
   * The body of the builder loop for one row (src/game.rs:60-117): split the
   * row into cells, score them, slide them and pack the result.
   */
  method RowResult(row: bv16) returns (result: bv16, s: nat)
    ensures result == SlideRow(row)
    ensures s == RowScore(row)
  {
    var line := new bv4[4];
    line[0] := ((row) & 0xF) as bv4;
    line[1] := ((row >> 4) & 0xF) as bv4;
    line[2] := ((row >> 8) & 0xF) as bv4;
    line[3] := ((row >> 12) & 0xF) as bv4;
    assert line[..] == RowCells(row);

    s := ScoreLine(line);

    SlideLine(line);

    result := Pack(line[0], line[1], line[2], line[3]);
    assert result == PackCells(line[..]);
  }

  /** Sliding the reversed row back gives the reversed result. */
  lemma BackOfRev(r: bv16, result: bv16)
    requires result == SlideRow(r)
    ensures SlideRowBack(Rev(r)) == Rev(result)
  {
    RevInvolution(r);
  }

  /**
   * The table builder of src/game.rs:51-135. Each left and up index is the
   * reversal of exactly one row, so after the loop every entry is written.
   */
  method BuildMoves() returns (m: Moves)
    ensures Valid(m)
  {
    SpecDescribes();
    m := FillTables(Spec);
    FilledAll(m);
  }

  /**
   * The loop of src/game.rs:58-134 over all 0x10000 rows, for a layout e
   * that describes what the loop body computes and where it stores it.
   *
   * The only layout that describes the builder is Spec, and BuildMoves passes
   * exactly that one. The loop is nevertheless stated for any describing
   * layout: its invariants then mention only the layout's fields, which the
   * verifier treats as unknown functions, and not the concrete entry
   * functions (RightAt and the others), whose definitions through the slide
   * and bit operations would enter every proof obligation of the 65536-step
   * loop and make it far too costly. RowMatches is the one place where the
   * two meet.
   */
  method FillTables(ghost e: Layout) returns (m: Moves)
    requires Describes(e)
    ensures Sized(m)
    ensures Filled(m.scores, 0x10000, e.rowKey, e.scores)
    ensures Filled(m.right, 0x10000, e.rowKey, e.right)
    ensures Filled(m.down, 0x10000, e.rowKey, e.down)
    ensures Filled(m.left, 0x10000, e.revKey, e.left)
    ensures Filled(m.up, 0x10000, e.revKey, e.up)
  {
    var leftMoves := new bv64[0x10000](_ => 0);
    var rightMoves := new bv64[0x10000](_ => 0);
    var upMoves := new bv64[0x10000](_ => 0);
    var downMoves := new bv64[0x10000](_ => 0);
    var scores := new nat[0x10000](_ => 0);

    for row := 0 to 0x10000
      invariant Filled(scores[..], row, e.rowKey, e.scores)
      invariant Filled(rightMoves[..], row, e.rowKey, e.right)
      invariant Filled(downMoves[..], row, e.rowKey, e.down)
      invariant Filled(leftMoves[..], row, e.revKey, e.left)
      invariant Filled(upMoves[..], row, e.revKey, e.up)
    {
      FillRow(row, leftMoves, rightMoves, upMoves, downMoves, scores, e);
    }
    m := Moves(leftMoves[..], rightMoves[..], downMoves[..], upMoves[..], scores[..]);
  }

  /**
   * The loop body of src/game.rs:59-133 for the row whose index is n: compute
   * its entries and make the five stores, row-keyed and reversal-keyed. If the
   * first n rows were filled, the first n + 1 are.
   */
  method FillRow(n: int, leftMoves: array<bv64>, rightMoves: array<bv64>,
                 upMoves: array<bv64>, downMoves: array<bv64>, scores: array<nat>,
                 ghost e: Layout)
    requires 0 <= n < 0x10000 && Describes(e)
    requires leftMoves.Length == rightMoves.Length == upMoves.Length == downMoves.Length
             == scores.Length == 0x10000
    requires leftMoves != rightMoves && leftMoves != upMoves && leftMoves != downMoves
    requires rightMoves != upMoves && rightMoves != downMoves && upMoves != downMoves
    requires scores as object != leftMoves && scores as object != rightMoves
    requires scores as object != upMoves && scores as object != downMoves
    requires Filled(scores[..], n, e.rowKey, e.scores)
    requires Filled(rightMoves[..], n, e.rowKey, e.right)
    requires Filled(downMoves[..], n, e.rowKey, e.down)
    requires Filled(leftMoves[..], n, e.revKey, e.left)
    requires Filled(upMoves[..], n, e.revKey, e.up)
    modifies leftMoves, rightMoves, upMoves, downMoves, scores
    ensures scores[..] == old(scores[..])[e.rowKey(n) := e.scores(e.rowKey(n))]
    ensures rightMoves[..] == old(rightMoves[..])[e.rowKey(n) := e.right(e.rowKey(n))]
    ensures downMoves[..] == old(downMoves[..])[e.rowKey(n) := e.down(e.rowKey(n))]
    ensures leftMoves[..] == old(leftMoves[..])[e.revKey(n) := e.left(e.revKey(n))]
    ensures upMoves[..] == old(upMoves[..])[e.revKey(n) := e.up(e.revKey(n))]
    ensures Filled(scores[..], n + 1, e.rowKey, e.scores)
    ensures Filled(rightMoves[..], n + 1, e.rowKey, e.right)
    ensures Filled(downMoves[..], n + 1, e.rowKey, e.down)
    ensures Filled(leftMoves[..], n + 1, e.revKey, e.left)
    ensures Filled(upMoves[..], n + 1, e.revKey, e.up)
  {
    var row := WordOf(n);
    var s, right, left, up, down := RowEntries(row);
    RowStored(n, row, s, right, left, up, down, e);
    var revRow := Rev(row) as int;
    Fill(scores[..], n, e.rowKey, e.scores, n, s);
    Fill(rightMoves[..], n, e.rowKey, e.right, n, right);
    Fill(downMoves[..], n, e.rowKey, e.down, n, down);
    Fill(leftMoves[..], n, e.revKey, e.left, revRow, left);
    Fill(upMoves[..], n, e.revKey, e.up, revRow, up);
    StoreRow(n, revRow, s, right, left, up, down, leftMoves, rightMoves, upMoves, downMoves,
             scores);
  }

  /**
   * The entries the builder loop computes for one row (src/game.rs:59-131):
   * the row's score, and the four moves XOR-ed from the row, its slid result
   * and their reversals.
   */
  method RowEntries(row: bv16) returns (s: nat, right: bv64, left: bv64, up: bv64, down: bv64)
    ensures s == RowScore(row)
    ensures right == RightEntry(row) && down == DownEntry(row)
    ensures left == LeftEntry(Rev(row)) && up == UpEntry(Rev(row))
  {
    var result;
    result, s := RowResult(row);
    var revRow := Rev(row);
    var revRes := Rev(result);
    BackOfRev(row, result);
    right := RowDelta(row, result);
    left := RowDelta(revRow, revRes);
    up := ColumnDelta(revRow, revRes);
    down := ColumnDelta(row, result);
  }

  /** The five stores of src/game.rs:75 and 128-131: row-keyed and reversal-keyed. */
  method StoreRow(rowIdx: int, revIdx: int, s: nat, right: bv64, left: bv64, up: bv64, down: bv64,
                  leftMoves: array<bv64>, rightMoves: array<bv64>,
                  upMoves: array<bv64>, downMoves: array<bv64>, scores: array<nat>)
    requires 0 <= rowIdx < 0x10000 && 0 <= revIdx < 0x10000
    requires leftMoves.Length == rightMoves.Length == upMoves.Length == downMoves.Length
             == scores.Length == 0x10000
    requires leftMoves != rightMoves && leftMoves != upMoves && leftMoves != downMoves
    requires rightMoves != upMoves && rightMoves != downMoves && upMoves != downMoves
    requires scores as object != leftMoves && scores as object != rightMoves
    requires scores as object != upMoves && scores as object != downMoves
    modifies leftMoves, rightMoves, upMoves, downMoves, scores
    ensures scores[..] == old(scores[..])[rowIdx := s]
    ensures rightMoves[..] == old(rightMoves[..])[rowIdx := right]
    ensures downMoves[..] == old(downMoves[..])[rowIdx := down]
    ensures leftMoves[..] == old(leftMoves[..])[revIdx := left]
    ensures upMoves[..] == old(upMoves[..])[revIdx := up]
  {
    scores[rowIdx] := s;
    rightMoves[rowIdx] := right;
    leftMoves[revIdx] := left;
    upMoves[revIdx] := up;
    downMoves[rowIdx] := down;
  }

  /** The row-keyed tables store row i's entries at index i. */
  ghost function RowKey(i: int): int {
    i
  }

  /** The reversal-keyed tables store row i's entries at the index of its reversal. */
  ghost function RevKey(i: int): (k: int)
    ensures 0 <= i < 0x10000 ==> 0 <= k < 0x10000
  {
    if 0 <= i < 0x10000 then IndexBound(Rev(RowAt(i))); Rev(RowAt(i)) as int else i
  }

  /** Every key is an index of the table. */
  ghost predicate KeysIn(key: int -> int) {
    forall i :: 0 <= i < 0x10000 ==> 0 <= key(i) < 0x10000
  }

  /** Different rows have different keys. */
  ghost predicate KeysApart(key: int -> int) {
    forall i, j :: 0 <= i < j < 0x10000 ==> key(i) != key(j)
  }

  /** The key of a key is the index itself, so every index is some row's key. */
  ghost predicate KeysBack(key: int -> int) {
    forall i :: 0 <= i < 0x10000 ==> key(key(i)) == i
  }

  /** Both kinds of key are indices, apart, and their own inverses. */
  lemma Keys()
    ensures KeysIn(RowKey) && KeysApart(RowKey) && KeysBack(RowKey)
    ensures KeysIn(RevKey) && KeysApart(RevKey) && KeysBack(RevKey)
  {
    forall i, j | 0 <= i < j < 0x10000
      ensures RevKey(i) != RevKey(j)
    {
      RevApart(RowAt(i), RowAt(j));
    }
    forall i | 0 <= i < 0x10000
      ensures RevKey(RevKey(i)) == i
    {
      RevKeyBack(i);
    }
  }

  /** Different rows have different reversals. */
  lemma RevApart(q: bv16, r: bv16)
    requires q != r
    ensures Rev(q) as int != Rev(r) as int
  {
    if Rev(q) as int == Rev(r) as int {
      IndexInjective(Rev(q), Rev(r));
      RevInvolution(q);
      RevInvolution(r);
    }
  }

  /** Reversing twice gives back the index. */
  lemma RevKeyBack(i: int)
    requires 0 <= i < 0x10000
    ensures RevKey(RevKey(i)) == i
  {
    IndexBound(Rev(RowAt(i)));
    IndexInjective(RowAt(Rev(RowAt(i)) as int), Rev(RowAt(i)));
    RevInvolution(RowAt(i));
  }

  /** How the builder keys its entries and what they are, one function per table. */
  datatype Layout = Layout(rowKey: int -> int, revKey: int -> int,
                           left: int -> bv64, right: int -> bv64, down: int -> bv64,
                           up: int -> bv64, scores: int -> nat)

  /** The layout the builder fills: the one `Valid` describes. */
  ghost const Spec: Layout := Layout(RowKey, RevKey, LeftAt, RightAt, DownAt, UpAt, ScoreAt)

  /** Layout e agrees with the builder's own at index i. */
  ghost predicate RowMatches(e: Layout, i: int)
    requires 0 <= i < 0x10000
  {
    e.rowKey(i) == RowKey(i) && e.revKey(i) == RevKey(i)
    && e.scores(i) == ScoreAt(i) && e.right(i) == RightAt(i) && e.down(i) == DownAt(i)
    && e.left(i) == LeftAt(i) && e.up(i) == UpAt(i)
  }

  /** Layout e has proper keys and agrees with the builder's at every index. */
  ghost predicate Describes(e: Layout) {
    KeysIn(e.rowKey) && KeysApart(e.rowKey) && KeysIn(e.revKey) && KeysApart(e.revKey)
    && forall i :: 0 <= i < 0x10000 ==> RowMatches(e, i)
  }

  /** The builder's own layout describes it. */
  lemma SpecDescribes()
    ensures Describes(Spec)
  {
    Keys();
  }

  /** The entries computed for the row read from the loop counter i are where e files them. */
  lemma RowStored(i: int, r: bv16, s: nat, right: bv64, left: bv64, up: bv64, down: bv64,
                  e: Layout)
    requires 0 <= i < 0x10000 && r as int == i && Describes(e)
    requires s == RowScore(r) && right == RightEntry(r) && down == DownEntry(r)
    requires left == LeftEntry(Rev(r)) && up == UpEntry(Rev(r))
    ensures e.rowKey(i) == i && e.revKey(i) == Rev(r) as int && 0 <= Rev(r) as int < 0x10000
    ensures e.scores(i) == s && e.right(i) == right && e.down(i) == down
    ensures e.left(Rev(r) as int) == left && e.up(Rev(r) as int) == up
  {
    IndexInjective(r, RowAt(i));
    IndexBound(Rev(r));
    IndexInjective(RowAt(Rev(r) as int), Rev(r));
    assert RowMatches(e, i) && RowMatches(e, Rev(r) as int);
  }

  /** The first n rows have their entries in place, each at its key. */
  ghost predicate Filled<T>(t: seq<T>, n: int, key: int -> int, f: int -> T)
    requires 0 <= n <= 0x10000 == |t| && KeysIn(key)
    decreases n
  {
    n == 0 || (Filled(t, n - 1, key, f) && t[key(n - 1)] == f(key(n - 1)))
  }

  /** Filled rows stay filled while a later row's entry is written. */
  lemma {:induction false} FilledFrame<T>(t: seq<T>, n: int, key: int -> int, f: int -> T,
                                          i: int, v: T)
    requires 0 <= n <= i < 0x10000 == |t| && KeysIn(key) && KeysApart(key)
    requires Filled(t, n, key, f)
    ensures Filled(t[key(i) := v], n, key, f)
    decreases n
  {
    if n > 0 {
      FilledFrame(t, n - 1, key, f, i, v);
    }
  }

  /** Writing row n's entry at its key fills one more row. */
  lemma Fill<T>(t: seq<T>, n: int, key: int -> int, f: int -> T, i: int, v: T)
    requires 0 <= n < 0x10000 == |t| && KeysIn(key) && KeysApart(key)
    requires Filled(t, n, key, f) && i == key(n) && v == f(i)
    ensures Filled(t[i := v], n + 1, key, f)
  {
    FilledFrame(t, n, key, f, n, v);
  }

  /** A row below the filled count has its entry in place. */
  lemma {:induction false} FilledAt<T>(t: seq<T>, n: int, key: int -> int, f: int -> T, i: int)
    requires 0 <= i < n <= 0x10000 == |t| && KeysIn(key) && Filled(t, n, key, f)
    ensures t[key(i)] == f(key(i))
    decreases n
  {
    if i < n - 1 {
      FilledAt(t, n - 1, key, f, i);
    }
  }

  /** Once every row is filled, every index holds its entry. */
  lemma FilledEvery<T>(t: seq<T>, key: int -> int, f: int -> T)
    requires 0x10000 == |t| && KeysIn(key) && KeysBack(key) && Filled(t, 0x10000, key, f)
    ensures forall i :: 0 <= i < 0x10000 ==> t[i] == f(i)
  {
    forall i | 0 <= i < 0x10000
      ensures t[i] == f(i)
    {
      FilledAt(t, 0x10000, key, f, key(i));
    }
  }

  /** Once every row is filled, the tables are valid. */
  lemma FilledAll(m: Moves)
    requires Sized(m) && KeysIn(RowKey) && KeysIn(RevKey)
    requires Filled(m.right, 0x10000, RowKey, RightAt) && Filled(m.down, 0x10000, RowKey, DownAt)
    requires Filled(m.scores, 0x10000, RowKey, ScoreAt)
    requires Filled(m.left, 0x10000, RevKey, LeftAt) && Filled(m.up, 0x10000, RevKey, UpAt)
    ensures Valid(m)
  {
    Keys();
    FilledEvery(m.right, RowKey, RightAt);
    FilledEvery(m.down, RowKey, DownAt);
    FilledEvery(m.scores, RowKey, ScoreAt);
    FilledEvery(m.left, RevKey, LeftAt);
    FilledEvery(m.up, RevKey, UpAt);
  }
}
