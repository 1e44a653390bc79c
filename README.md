# A verified model of the bit-packed 2048 engine

This project models the rules engine of a 2048 game, `src/game.rs`, in Dafny
and proves properties of it. A board is one 64-bit word made of four 16-bit
rows. Each row holds four 4-bit cells ("nybbles"). A cell stores the power of
two of its tile, and 0 means empty. A move does not touch cells one by one.
It looks up a precomputed XOR delta for each of the four rows (or, for
vertical moves, each of the four rows of the transposed board, that is, the
board's columns) and XORs the four deltas into the board.

The modules follow the structure of the source:

- `Bits` (bits.dfy): the board layout, `ROW_MASK` and `COL_MASK`,
  `Moves::column_from`, the nybble reversal `rev_row`, packing four cells into
  a row, and `Game::transpose`.
- `Rows` (rows.dfy): the row slide-and-merge loop and the row score loop
  inside the `MOVES` builder, written as imperative methods over a
  four-cell array. It also holds the functional specification they are
  proved against, with the properties of a slide.
- `Tables` (tables.dfy): the `Moves` record with its five tables, the
  validity predicate saying what every entry is, and the builder loop that
  fills five arrays over all 65536 rows and is proved to produce valid tables.
- `Engine` (engine.dfy): `move_left`, `move_right`, `move_up`, `move_down`,
  `count_empty` (a loop), `table_helper` and `score`.
- `Spawn` (spawn.dfy): `tile` and the nested search loop of `spawn_tile`,
  with what a spawn does to the board.
- `Session` (session.dfy): the `Game` class with its `board` and `seed`
  fields, its constructor `new`, and `execute`, which folds the moves over a
  copy of the board and spawns one tile after a single move.

The move tables are a value of type `Moves`. Every mover takes them as a
parameter together with the precondition `Valid(m)`. `Tables.BuildMoves`
establishes that precondition. It models the code that builds the tables
(src/game.rs:52-134), not the once-only `lazy_static!` mechanism that runs
it.

The random generator `gen_range` belongs to a crate outside this model. In
the model it is a function parameter of type `Gen`. Two things are assumed
about it. First, `Spawn.GenInRange`: a draw from a non-empty range `[lo, hi)`
lies in that range; every lemma that needs this states it as a
precondition. Second, because `Gen` is a total function, a draw from the
empty range `[0, 0)`, which `spawn_tile` makes on a full board, is modelled
as returning some value. The source does not promise that the generator
returns at all in that case (see "## Left out"). The spawn methods
themselves need nothing else of the generator.

What the source's comments say and what its code does differ in a few
places. The model follows the code in each case:

- The comment at src/game.rs:49-50 gives rows `0x0002` and `0x0003` scores
  of 4 and 16. The code's formula yields 8 and 32. `Rows.CellScoreIsTwiceMergeTotal`
  proves that the code's cell score is always exactly twice the "tile plus
  all intermediate merges" sum that the comment describes.
- `tile` returns the 4-tile when a draw from `[0, 10)` equals 10. That can
  never happen, so every spawned tile is a 2 (`Spawn.TileAlwaysOne`).
- The comments of the four movers say each is "the same as" `execute` with
  that direction. `execute` with one direction also spawns a tile, so the
  two differ by that spawn (`Session.ExecutedSingle`).
- The example in the comment of `execute` calls it as a free function on a
  board and shows the board before the spawn. The model states that
  example for the moves alone (`Session.ApplyExample`).

## Model

The layout helpers `Bits.RowOf` (src/game.rs:340-343), `Bits.FromRows`,
`Bits.RowCells` (src/game.rs:61-66), `Bits.Pack` and `Bits.PackCells`
(src/game.rs:114-117) transcribe the source's shifts and masks. They carry
no rows of their own: what they mean is stated by the round-trip rows
`Bits.RowsRoundTrip`, `Bits.FromRowsRoundTrip`, `Bits.RowCellsPackCells` and
`Bits.PackCellsRowCells` below. Likewise `Engine.TableHelper` transcribes
`table_helper` (src/game.rs:402-407); its meaning is stated by the
`Engine.TableHelperFromRows` row.

| member | source | states |
|---|---|---|
| Bits.NybbleExtensional | src/game.rs:140-142 | two boards with the same sixteen cells are the same board |
| Bits.RowsRoundTrip | src/game.rs:340-343 | splitting a board into its four rows with `ROW_MASK` and shifting them back together gives the board |
| Bits.FromRowsRoundTrip | src/game.rs:340-343 | joining four rows and splitting the result gives each row back |
| Bits.RowCellsPackCells | src/game.rs:114-117 | splitting a row into four cells and packing them gives the row back |
| Bits.PackCellsRowCells | src/game.rs:114-117 | packing four cells and splitting the row gives the cells back, lowest nybble first |
| Bits.RevInvolution | src/game.rs:121-122 | the nybble reversal is its own inverse, so it is a bijection on rows |
| Bits.Rev | src/game.rs:121-122 | `rev_row` reverses the order of a row's four cells |
| Bits.RevAs64 | src/game.rs:121-122 | the reversal evaluated on a 64-bit word leaves no bit above 16 and equals the 16-bit reversal |
| Bits.ColumnFrom | src/game.rs:37-39 | only the lowest nybble of each row of `column_from`'s result can be non-zero |
| Bits.ColumnFromPlaces | src/game.rs:37-39 | `column_from` puts cell k of a row at nybble 4k (bits 16k..16k+3) and clears every other nybble |
| Bits.ColumnFromXor | src/game.rs:37-39 | `column_from` distributes over XOR |
| Bits.Transpose | src/game.rs:245-257 | the transpose keeps the four cells of the diagonal in place |
| Bits.TransposeCell | src/game.rs:245-257 | the transpose sends the cell at row r, column c to row c, column r |
| Bits.TransposeInvolution | src/game.rs:245-257 | the transpose is self-inverse |
| Bits.TransposeExample | src/game.rs:243 | `transpose(0xFEDC_BA98_7654_3210) == 0xFB73_EA62_D951_C840` |
| Bits.TransposeXor | src/game.rs:245-257 | the transpose distributes over XOR |
| Bits.TransposeOfRow | src/game.rs:130-131 | transposing a board whose only non-zero row is row i gives `column_from` of that row shifted to column i, which is why the up and down tables hold `column_from` deltas |
| Bits.WordOf | src/game.rs:125-126 | the row read from the loop counter has that counter as its table index |
| Rows.Promote | src/game.rs:104-107 | a merged cell's power goes up by 1, except that a pair of 0xF cells stays 0xF; a non-empty cell stays non-empty |
| Rows.Merge | src/game.rs:104-107 | merging never lengthens a line and emits at least one cell per two input cells; non-empty input gives non-empty output. That a merged cell is not merged again comes from the definition, which continues after a merged pair (and from `Rows.MergeStep` for the loop), not from these bounds |
| Rows.SlideShape | src/game.rs:82-111 | a slid line keeps its length, has no tile after an empty cell, its tiles are the merge of the old tiles, and it has no more tiles than before and at least half as many |
| Rows.NextTile | src/game.rs:84-90 | the inner scan returns the first non-empty cell after i, or 4 when every later cell is empty |
| Rows.ShiftStep | src/game.rs:98-101 | moving the next tile into the empty cell i changes neither the prefix nor the tiles from i on |
| Rows.MergeStep | src/game.rs:104-107 | merging cell i with the equal tile j emits the promoted tile and leaves the rest of the final result unchanged |
| Rows.KeepStep | src/game.rs:109-110 | a tile whose next tile differs is emitted unchanged and the rest of the final result is unchanged |
| Rows.SlideFromSlides | src/game.rs:82-111 | from any cursor position, the remaining steps of the loop produce the prefix followed by the merged tiles of the rest, padded with empty cells |
| Rows.SlideFromComputes | src/game.rs:82-111 | the loop run from the first cell computes the slide of the line |
| Rows.SlideLine | src/game.rs:77-111 | the in-place loop over the four-cell array terminates and leaves the slide of the original line in the array |
| Rows.MergeValue | src/game.rs:104-107 | merging tiles never increases the total face value of a line |
| Rows.MergeValueExact | src/game.rs:104-107 | without 0xF tiles, merging keeps the total face value exactly |
| Rows.SlideValue | src/game.rs:82-111 | a slide never increases the total face value of a line, and keeps it when no cell holds 0xF |
| Rows.SlideFifteens | src/game.rs:105 | two 0xF tiles slide into a single 0xF tile and half of the value is lost |
| Rows.ScoreLine | src/game.rs:69-73 | the scoring loop sums `(t - 1) * (2 << t)` over the cells above 1 |
| Rows.CellScoreBound | src/game.rs:72 | one cell scores at most 14 * 2^16, so the source's u64 product never wraps |
| Rows.CellsScoreConcat | src/game.rs:71-73 | the score of two lines joined is the sum of their scores |
| Rows.CellsScoreBound | src/game.rs:71-73 | a line of n cells scores at most n * 14 * 2^16 |
| Rows.CellsScorePermutation | src/game.rs:69-75 | a line's score does not depend on the order of its cells |
| Rows.MergeTotalClosed | src/game.rs:49 | the tile's value plus all intermediate merges, for a tile of power t, is (t - 1) * 2^t |
| Rows.CellScoreIsTwiceMergeTotal | src/game.rs:49-50 | the code's cell score is twice the sum that the comment describes |
| Tables.Moves | src/game.rs:27-33 | the record of five tables, left, right, down, up and scores |
| Tables.SlideRow | src/game.rs:114-117 | the packed result of a row has as its cells the slide of the row's cells |
| Tables.SlideRowExamples | src/game.rs:46 | right: `0x0011 -> 0x0002`, left: `0x0011 -> 0x2000`, and the rows of the mover examples slid both ways |
| Tables.ScoreCommentExamples | src/game.rs:49-50 | the comment's scores 4 and 16 for rows `0x0002` and `0x0003` are the tile-plus-merges sums; the table holds 8 and 32 |
| Tables.RowResult | src/game.rs:60-117 | the loop body splits the row into cells, scores them and slides them, returning the slid row and the row's score |
| Tables.BackOfRev | src/game.rs:121-122 | sliding the reversed row toward cell 3 gives the reversed result |
| Tables.RowEntries | src/game.rs:119-131 | the four deltas computed for a row are right and down from the row and its result, left and up from their reversals |
| Tables.StoreRow | src/game.rs:128-131 | the five stores (with the score store at src/game.rs:75) write the row-keyed entries at the row's index and the reversal-keyed ones at the reversed row's index, and nothing else |
| Tables.FillRow | src/game.rs:59-133 | one iteration of the builder loop writes its five entries and extends the filled prefix by one row in every table |
| Tables.FillTables | src/game.rs:53-134 | after the loop over all 65536 rows every table has 65536 entries and every row's entries are at their keys |
| Tables.Keys | src/game.rs:125-126 | row keys and reversed-row keys are table indices, distinct for distinct rows, and their own inverses |
| Tables.RevApart | src/game.rs:121-126 | distinct rows have distinct reversed indices, so no left or up entry is overwritten |
| Tables.RevKeyBack | src/game.rs:121-126 | reversing twice gives back the index, so every left and up index is written |
| Tables.RowStored | src/game.rs:125-131 | the entries computed for the row from loop counter i are the ones valid tables hold at that row's and its reversal's index |
| Tables.FilledAll | src/game.rs:59-132 | once all rows are filled, every index of every table holds the entry of the row with that index |
| Tables.BuildMoves | src/game.rs:51-135 | the builder produces valid tables |
| Tables.LookupRight | src/game.rs:128 | a right lookup of row r reads `r ^ slide(r)` |
| Tables.LookupLeft | src/game.rs:129 | a left lookup of row r reads `r ^ rev(slide(rev(r)))` |
| Tables.LookupUp | src/game.rs:130 | an up lookup of row r reads the `column_from` delta of r and its slide toward cell 3 |
| Tables.LookupDown | src/game.rs:131 | a down lookup of row r reads the `column_from` delta of r and its slide |
| Tables.LookupScore | src/game.rs:75 | a score lookup of row r reads the score of r's cells |
| Engine.XorRowsSlide | src/game.rs:338-345 | XORing each row's delta toward a new row into the board gives exactly the board of the new rows |
| Engine.XorColumnsSlide | src/game.rs:278-286 | XORing each transposed row's column delta into the board gives the transpose of the board of the new rows |
| Engine.MoveRight | src/game.rs:337-346 | `move_right` replaces every row by its slide toward nybble 0 |
| Engine.MoveLeft | src/game.rs:366-375 | `move_left` replaces every row by its slide toward nybble 3 |
| Engine.MoveUp | src/game.rs:277-287 | `move_up(b) == transpose(move_left(transpose(b)))` |
| Engine.MoveDown | src/game.rs:307-317 | `move_down(b) == transpose(move_right(transpose(b)))` |
| Engine.Move | src/game.rs:215-220 | right and left replace every row by its slide toward nybble 0 or nybble 3; up and down are the left and right moves of the transposed board, transposed back |
| Engine.MoveRightRows | src/game.rs:337-346 | after a right move, row i holds the slide of row i and no other row's bits |
| Engine.MoveLeftRows | src/game.rs:366-375 | after a left move, row i holds `rev(slide(rev(row i)))` |
| Engine.MoveRightExample | src/game.rs:327-335 | `move_right(0x2211) == 0x0032` |
| Engine.MoveLeftExample | src/game.rs:356-364 | `move_left(0x2211) == 0x3200`, and `0x0000_0000_0022_1100` moves left to `0x0000_0000_3000_2000` |
| Engine.MoveUpExample | src/game.rs:267-275 | `move_up(0x0011) == 0x0011_0000_0000_0000` |
| Engine.MoveDownExample | src/game.rs:297-305 | `move_down(0x0011_0000_0000_0011) == 0x0022` |
| Engine.CellIsNybble | src/game.rs:393 | the loop's `(board >> (i * 4)) & 0xF` is cell i of the board |
| Engine.CountEmpty | src/game.rs:389-399 | the loop counts the empty cells of the board |
| Engine.EmptyBound | src/game.rs:389-399 | a board has at most 16 empty cells, and 16 exactly when it is 0 |
| Engine.EmptySame | src/game.rs:389-399 | two boards that agree on cells k to 15 have as many empty cells there |
| Engine.CountEmptyExample | src/game.rs:384-387 | `count_empty(0x2211) == 12` |
| Engine.TableHelperFromRows | src/game.rs:402-407 | on the board joined from any four rows, `table_helper` returns the sum of exactly those rows' table entries |
| Engine.Score | src/game.rs:402-413 | the sum of the four row lookups is the sum of the scores of all sixteen cells |
| Engine.ScoreBound | src/game.rs:411-413 | a board's score fits the u64 result |
| Spawn.Tile | src/game.rs:416-422 | `tile` returns power 1 or 2, and 2 exactly when the draw is 10 |
| Spawn.TileAlwaysOne | src/game.rs:417 | a draw from `[0, 10)` is never 10, so `tile` always returns power 1, a 2 |
| Spawn.SkipFull | src/game.rs:431-434 | skipping a full cell shifts board and tile by one cell and keeps the cell the search will stop at |
| Spawn.PassEmpty | src/game.rs:438-443 | passing an empty cell that is not the drawn one uses up one of the draw and keeps the target |
| Spawn.Found | src/game.rs:436-437 | at an empty cell with the draw used up, the tile sits at the target cell |
| Spawn.SkipTiles | src/game.rs:431-434 | the inner loop stops at an empty cell and keeps the search state |
| Spawn.SpawnTile | src/game.rs:425-447 | the loop terminates and returns the tile shifted to the idx-th empty cell counted from nybble 0, or 0 when there is none |
| Spawn.ZeroFound | src/game.rs:427-444 | a draw below the number of empty cells finds an empty cell |
| Spawn.ZeroRank | src/game.rs:427-444 | the cell found has exactly idx empty cells below it |
| Spawn.ZeroMissing | src/game.rs:427-444 | a draw at or past the number of empty cells finds no cell |
| Spawn.PlaceDisjoint | src/game.rs:424 | a tile placed in an empty cell shares no bit with the board |
| Spawn.EmptyFill | src/game.rs:225 | filling one empty cell and keeping the others leaves one empty cell fewer |
| Spawn.PlacedTile | src/game.rs:424-447 | a 2 placed in the empty cell p shares no bit with the board, has no other non-empty cell, and or-ed in leaves one empty cell fewer |
| Spawn.SpawnedTile | src/game.rs:425-447 | on a board with an empty cell the spawn is a single 2 in the drawn empty cell, which has exactly idx empty cells below it |
| Spawn.SpawnedDisjoint | src/game.rs:425-447 | the spawned tile shares no bit with the board |
| Spawn.SpawnedCells | src/game.rs:425-447 | on a board with an empty cell exactly one cell of the spawn is non-empty, and it holds a 2 |
| Spawn.SpawnedNothing | src/game.rs:430-446 | a draw that finds no empty cell spawns nothing |
| Spawn.SpawnedOnFull | src/game.rs:427-446 | on a full board the spawn is 0 whatever the generator draws |
| Spawn.AddTile | src/game.rs:225 | the board with its spawned tile or-ed in, as both call sites of `spawn_tile` do |
| Spawn.WithTileCells | src/game.rs:225 | or-ing in the spawn sets the drawn empty cell to a 2 and keeps every other cell |
| Spawn.WithTileCount | src/game.rs:225 | or-ing in the spawn leaves one empty cell fewer |
| Spawn.WithTileOnFull | src/game.rs:225 | on a full board or-ing in the spawn leaves the board as it was |
| Session.Succ | src/game.rs:182 | `seed + 1`, wrapping from the largest u32 to 0 |
| Session.NewBoardCount | src/game.rs:175-185 | a new game has exactly fourteen empty cells |
| Session.NewBoardTiles | src/game.rs:175-185 | a new game has only 2s on it |
| Session.Game.constructor | src/game.rs:175-185 | a new game has the given seed and the board made by two spawns on the empty board, with `seed` then `seed + 1` |
| Session.Apply | src/game.rs:213-221 | folding no direction leaves the board, and folding one direction makes that one move |
| Session.ApplyConcat | src/game.rs:214-221 | folding the moves of xs and then those of ys is folding xs + ys |
| Session.ApplyFirst | src/game.rs:214-221 | the first move of the list is made first |
| Session.ApplyMove | src/game.rs:215-220 | a single direction makes the move it names |
| Session.ApplyExample | src/game.rs:201-210 | the moves of the documented example take `0x0000_0000_0022_1100` to `0x0000_0000_3000_2000` |
| Session.ExecutedSingle | src/game.rs:223-226 | with one direction, the result is the move followed by a spawn |
| Session.ExecutedOne | src/game.rs:223-226 | with one direction, a moved board with an empty cell gets a 2 in the drawn cell, keeps every other cell and has one empty cell fewer; a full moved board is returned as moved |
| Session.ExecutedMany | src/game.rs:212-231 | with two or more directions, the moves are only folded and no tile is spawned |
| Session.Game.Execute | src/game.rs:212-231 | `execute` returns the folded moves, spawned after when there is exactly one direction, returns the board itself for no direction, and leaves the game's fields unchanged |

## Left out

- `gen_range` (src/game.rs:1) is in a crate outside this model. It is the `Gen` parameter, applied to the seed instead of the seed's decimal string. Two things are assumed of it: `Spawn.GenInRange`, and that a draw from the empty range `[0, 0)` returns some value (see the line on `Spawn.SpawnedOnFull` below).
- The 90/10 split between 2s and 4s promised at src/game.rs:415 depends on the unseen generator. Only the reachable values are stated.
- The `lazy_static!` one-time initialisation (src/game.rs:42) is not modelled. The tables are a value built once by `Tables.BuildMoves` and passed to every operation that reads them.
- The `log::info!` call (src/game.rs:228) is output only. It is left out.
- `Direction` comes from the same external crate. The model redeclares it as a four-case datatype, `Engine.Direction`.
- The web front end and the storage declarations of the repository are not part of this model.
- Engine.CountEmpty returns an unbounded `nat`, not a `u32`. `Engine.EmptyBound` shows the count is at most 16.
- Engine.Score and Rows.ScoreLine compute the score as an unbounded `nat`, not a `u64`. `Engine.ScoreBound` and `Rows.CellScoreBound` show that the source's arithmetic never wraps.
- Session.Succ wraps `seed + 1` to 0 at the largest seed, as a release build does. A debug build would panic there instead.
- Session.Game.Execute takes the tables and the generator as parameters. Its effect on the game is stated by the absence of a `modifies` clause rather than by an `ensures`.
- Spawn.SpawnedOnFull, Spawn.WithTileOnFull, the full-board case of Spawn.SpawnedDisjoint and the full-board clause of Session.ExecutedOne model a draw from the empty range `[0, 0)` as returning some value, which the source does not promise: on a full board `spawn_tile` calls `gen_range(&seed.to_string(), 0, 0)` (src/game.rs:427), whose behaviour is not part of this model and may be an error. What these members state, that nothing is added and a full moved board is returned as moved, holds only for a generator that returns there.
- Session.NewBoardCount and Session.NewBoardTiles hold only under the generator assumption `Spawn.GenInRange`. So do the lemmas of the Spawn module that say where a spawned tile lands.
