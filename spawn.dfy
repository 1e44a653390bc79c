/**
 * New tiles: `tile` and `spawn_tile` (src/game.rs:415-447).
 *
 * The generator `gen_range` comes from a crate whose code is not part of this
 * model (src/game.rs:1); it is a function parameter. Two things are assumed
 * of it: GenInRange, a predicate that the lemmas needing it take as a
 * precondition, and, because a parameter of function type is total, that a
 * draw from the empty range [0, 0), made on a full board, returns some value.
 */
module Spawn {
  import opened Engine

  /** A u32 value, the game's seed. */
  newtype U32 = x: int | 0 <= x < 0x1_0000_0000

  /** `gen_range(seed, lo, hi)`: a draw that depends on the seed and the range. */
  type Gen = (U32, nat, nat) -> nat

  /** ASSUMPTION about the unseen generator: a draw from a non-empty range lies in it. */
  ghost predicate GenInRange(gen: Gen) {
    forall seed: U32, lo: nat, hi: nat | lo < hi :: lo <= gen(seed, lo, hi) < hi
  }

  /** The power of the new tile: 2 when the draw from [0, 10) is 10, else 1 (src/game.rs:416-422). */
  function Tile(gen: Gen, seed: U32): (t: bv64)
    ensures t == 1 || t == 2
    ensures t == 2 <==> gen(seed, 0, 10) == 10
  {
    if gen(seed, 0, 10) == 10 then 2 else 1
  }

  /** A draw from [0, 10) is never 10, so every new tile is a 2 (power 1). */
  lemma TileAlwaysOne(gen: Gen, seed: U32)
    requires GenInRange(gen)
    ensures Tile(gen, seed) == 1
  {
    assert 0 <= gen(seed, 0, 10) < 10;
  }

  /** The board with its lowest k cells shifted out; 0 once all 16 are gone. */
  function Above(b: bv64, k: bv8): bv64
    requires k <= 16
  {
    if k < 16 then b >> (k * 4) else 0
  }

  /** The tile t moved up to cell k; 0 once it is shifted past cell 15. */
  function Place(t: bv64, k: bv8): bv64
    requires k <= 16
  {
    if k < 16 then t << (k * 4) else 0
  }

  /** The next cell index, staying at 16 past the last cell. */
  function Next(k: bv8): bv8
    requires k <= 16
  {
    if k < 16 then k + 1 else 16
  }

  /**
   * The cell the search of src/game.rs:431-444 stops at: starting at cell k,
   * skip full cells, and stop at the idx-th empty one; 16 when there is none.
   * Cells past the last read as empty, as the shifted-out board does.
   */
  ghost function ZeroFrom(b: bv64, k: bv8, idx: nat): (p: bv8)
    requires k <= 16
    ensures k <= p <= 16
    decreases idx, 16 - k
  {
    if k < 16 && Cell(b, k) != 0 then ZeroFrom(b, k + 1, idx)
    else if idx == 0 then k
    else ZeroFrom(b, Next(k), idx - 1)
  }

  /** What spawn_tile returns: the new tile placed at the drawn empty cell. */
  ghost function Spawned(board: bv64, seed: U32, gen: Gen): bv64 {
    Place(Tile(gen, seed), ZeroFrom(board, 0, gen(seed, 0, EmptyFrom(board, 0))))
  }

  /** The board shifted down by one cell, `tmp >>= 4`. */
  function Down(x: bv64): bv64 {
    x >> 4
  }

  /** The tile shifted up by one cell, `t <<= 4`. */
  function Up(x: bv64): bv64 {
    x << 4
  }

  /** The low nybble of the shifted board is cell k of the board. */
  lemma AboveLow(b: bv64, k: bv8)
    requires k <= 16
    ensures Above(b, k) & 0xF == if k < 16 then Cell(b, k) else 0
  {
  }

  /** Shifting the board down by one cell moves it to the next index. */
  lemma StepDown(b: bv64, k: bv8)
    requires k <= 16
    ensures Down(Above(b, k)) == Above(b, Next(k))
  {
  }

  /** The shifted board shrinks while its low cell is full. */
  lemma Shrinks(x: bv64)
    requires x & 0xF != 0
    ensures Down(x) < x
  {
  }

  /** Shifting the tile up by one cell moves it to the next index. */
  lemma StepUp(t: bv64, k: bv8)
    requires k <= 16
    ensures Up(Place(t, k)) == Place(t, Next(k))
  {
  }

  /** A full cell is skipped. */
  lemma ZeroSkip(b: bv64, k: bv8, idx: nat)
    requires k < 16 && Cell(b, k) != 0
    ensures ZeroFrom(b, k, idx) == ZeroFrom(b, Next(k), idx)
  {
  }

  /** An empty cell that is not the one drawn uses up one of the draw. */
  lemma ZeroPass(b: bv64, k: bv8, idx: nat)
    requires k <= 16 && (k == 16 || Cell(b, k) == 0) && idx > 0
    ensures ZeroFrom(b, k, idx) == ZeroFrom(b, Next(k), idx - 1)
  {
  }

  /** The search stops at the first empty cell once the draw is used up. */
  lemma ZeroStop(b: bv64, k: bv8)
    requires k <= 16 && (k == 16 || Cell(b, k) == 0)
    ensures ZeroFrom(b, k, 0) == k
  {
  }

  /**
   * The state of the search loop: the board and the tile are shifted by k
   * cells, and the drawn cell from k on is the target p.
   */
  ghost predicate Searching(board: bv64, tile: bv64, tmp: bv64, t: bv64, k: bv8, idx: nat, p: bv8) {
    k <= 16 && tmp == Above(board, k) && t == Place(tile, k) && ZeroFrom(board, k, idx) == p
  }

  /** A full low cell of the shifted board is a full cell k of the board. */
  lemma FullCell(board: bv64, tmp: bv64, k: bv8)
    requires k <= 16 && tmp == Above(board, k) && tmp & 0xF != 0
    ensures k < 16 && Cell(board, k) != 0
    ensures Down(tmp) == Above(board, Next(k)) && Down(tmp) < tmp
  {
    AboveLow(board, k);
    Shrinks(tmp);
    StepDown(board, k);
  }

  /** Skipping a full cell keeps the search state, and the shifted board shrinks. */
  lemma SkipFull(board: bv64, tile: bv64, tmp: bv64, t: bv64, k: bv8, idx: nat, p: bv8)
    requires Searching(board, tile, tmp, t, k, idx, p) && tmp & 0xF != 0
    ensures Searching(board, tile, Down(tmp), Up(t), Next(k), idx, p)
    ensures Down(tmp) < tmp
  {
    FullCell(board, tmp, k);
    ZeroSkip(board, k, idx);
    StepUp(tile, k);
  }

  /** Passing an empty cell that is not the drawn one keeps the search state. */
  lemma PassEmpty(board: bv64, tile: bv64, tmp: bv64, t: bv64, k: bv8, idx: nat, p: bv8)
    requires Searching(board, tile, tmp, t, k, idx, p) && tmp & 0xF == 0 && idx > 0
    ensures Searching(board, tile, Down(tmp), Up(t), Next(k), idx - 1, p)
  {
    AboveLow(board, k);
    ZeroPass(board, k, idx);
    StepDown(board, k);
    StepUp(tile, k);
  }

  /** At an empty cell with the draw used up, the tile sits at the target. */
  lemma Found(board: bv64, tile: bv64, tmp: bv64, t: bv64, k: bv8, p: bv8)
    requires Searching(board, tile, tmp, t, k, 0, p) && tmp & 0xF == 0
    ensures t == Place(tile, p)
  {
    AboveLow(board, k);
    ZeroStop(board, k);
  }

  /** The inner loop of src/game.rs:431-434: shift past the full cells. */
  method SkipTiles(tmp0: bv64, t0: bv64, ghost board: bv64, ghost tile: bv64, ghost k0: bv8,
                   ghost idx: nat, ghost p: bv8)
    returns (tmp: bv64, t: bv64, ghost k: bv8)
    requires Searching(board, tile, tmp0, t0, k0, idx, p)
    ensures Searching(board, tile, tmp, t, k, idx, p) && tmp & 0xF == 0
  {
    tmp, t, k := tmp0, t0, k0;
    while tmp & 0xF != 0
      invariant Searching(board, tile, tmp, t, k, idx, p)
      decreases tmp
    {
      SkipFull(board, tile, tmp, t, k, idx, p);
      tmp := Down(tmp);
      t := Up(t);
      k := Next(k);
    }
  }

  /** spawn_tile (src/game.rs:425-447), with its draw taken from gen. */
  method SpawnTile(board: bv64, seed: U32, gen: Gen) returns (t: bv64)
    ensures t == Spawned(board, seed, gen)
  {
    var tmp := board;
    var count := CountEmpty(board);
    var idx := gen(seed, 0, count);
    t := Tile(gen, seed);
    ghost var tile := t;
    ghost var k: bv8 := 0;
    ghost var p := ZeroFrom(board, 0, idx);
    while true
      invariant Searching(board, tile, tmp, t, k, idx, p)
      decreases idx
    {
      tmp, t, k := SkipTiles(tmp, t, board, tile, k, idx, p);
      if idx == 0 {
        Found(board, tile, tmp, t, k, p);
        break;
      } else {
        PassEmpty(board, tile, tmp, t, k, idx, p);
        idx := idx - 1;
      }
      tmp := Down(tmp);
      t := Up(t);
      k := Next(k);
    }
  }

  // ---- what a spawn does to the board ----

  /** A draw below the number of empty cells from k on finds an empty cell. */
  lemma {:induction false} ZeroFound(b: bv64, k: bv8, idx: nat)
    requires k <= 16 && idx < EmptyFrom(b, k)
    ensures ZeroFrom(b, k, idx) < 16 && Cell(b, ZeroFrom(b, k, idx)) == 0
    decreases idx, 16 - k
  {
    if Cell(b, k) != 0 {
      ZeroFound(b, k + 1, idx);
    } else if idx > 0 {
      ZeroFound(b, k + 1, idx - 1);
    }
  }

  /** The cell such a draw finds has exactly idx empty cells between k and it. */
  lemma {:induction false} ZeroRank(b: bv64, k: bv8, idx: nat)
    requires k <= 16 && idx < EmptyFrom(b, k)
    ensures EmptyFrom(b, k) == idx + EmptyFrom(b, ZeroFrom(b, k, idx))
    decreases idx, 16 - k
  {
    if Cell(b, k) != 0 {
      ZeroRank(b, k + 1, idx);
    } else if idx > 0 {
      ZeroRank(b, k + 1, idx - 1);
    }
  }

  /** A draw at or past the number of empty cells from k on finds none. */
  lemma {:induction false} ZeroMissing(b: bv64, k: bv8, idx: nat)
    requires k <= 16 && EmptyFrom(b, k) <= idx
    ensures ZeroFrom(b, k, idx) == 16
    decreases idx, 16 - k
  {
    if k < 16 && Cell(b, k) != 0 {
      ZeroMissing(b, k + 1, idx);
    } else if idx > 0 {
      ZeroMissing(b, Next(k), idx - 1);
    }
  }

  /** A tile below 16 placed at cell p fills cell p with the tile and leaves the others empty. */
  lemma PlaceCells(t: bv64, p: bv8, j: bv8)
    requires t < 16 && p < 16 && j < 16
    ensures Cell(Place(t, p), j) == if j == p then t else 0
  {
  }

  /** A tile placed in an empty cell shares no bit with the board. */
  lemma PlaceDisjoint(t: bv64, b: bv64, p: bv8)
    requires t < 16 && p < 16 && Cell(b, p) == 0
    ensures Place(t, p) & b == 0
  {
  }

  /** The cells of a union are the unions of the cells. */
  lemma CellOr(x: bv64, y: bv64, j: bv8)
    requires j < 16
    ensures Cell(x | y, j) == Cell(x, j) | Cell(y, j)
  {
  }

  /** After placing a non-empty tile at p, cell p is not empty. */
  lemma CellAtPlace(b: bv64, t: bv64, p: bv8)
    requires 0 < t < 16 && p < 16
    ensures Cell(b | Place(t, p), p) != 0
  {
  }

  /** Placing a tile at p leaves every other cell as it was. */
  lemma CellBesidePlace(b: bv64, t: bv64, p: bv8, j: bv8)
    requires t < 16 && p < 16 && j < 16 && j != p
    ensures Cell(b | Place(t, p), j) == Cell(b, j)
  {
  }

  /**
   * A board y that agrees with x from cell k on, except that the empty cell p
   * of x, at or after k, is full in y, has one empty cell fewer from k on.
   */
  lemma {:induction false} EmptyFill(x: bv64, y: bv64, p: bv8, k: bv8)
    requires k <= p < 16 && Cell(x, p) == 0 && Cell(y, p) != 0
    requires forall j: bv8 | k <= j < 16 && j != p :: Cell(y, j) == Cell(x, j)
    ensures EmptyFrom(y, k) + 1 == EmptyFrom(x, k)
    decreases p - k
  {
    if k == p {
      EmptySame(x, y, k + 1);
    } else {
      EmptyFill(x, y, p, k + 1);
      assert Cell(y, k) == Cell(x, k);
    }
  }

  /** Placing a non-empty tile in the empty cell p leaves one empty cell fewer. */
  lemma EmptyAfterPlace(b: bv64, t: bv64, p: bv8, d: bv64)
    requires 0 < t < 16 && p < 16 && Cell(b, p) == 0 && d == Place(t, p)
    ensures EmptyFrom(b | d, 0) + 1 == EmptyFrom(b, 0)
  {
    CellAtPlace(b, t, p);
    forall j: bv8 | j < 16 && j != p
      ensures Cell(b | Place(t, p), j) == Cell(b, j)
    {
      CellBesidePlace(b, t, p, j);
    }
    EmptyFill(b, b | Place(t, p), p, 0);
  }

  /** The cell a spawn draws, 16 when the draw finds none. */
  ghost function SpawnCell(board: bv64, seed: U32, gen: Gen): bv8 {
    ZeroFrom(board, 0, gen(seed, 0, EmptyFrom(board, 0)))
  }

  /**
   * A delta d that is a 2 (power 1) placed in the empty cell p shares no bit
   * with the board, has no other non-empty cell, and or-ed in leaves one
   * empty cell fewer.
   */
  lemma PlacedTile(board: bv64, d: bv64, p: bv8)
    requires p < 16 && Cell(board, p) == 0 && d == Place(1, p)
    ensures Disjoint(d, board)
    ensures forall j: bv8 | j < 16 :: Cell(d, j) == if j == p then 1 else 0
    ensures EmptyFrom(Or(board, d), 0) + 1 == EmptyFrom(board, 0)
  {
    PlaceDisjoint(1, board, p);
    forall j: bv8 | j < 16
      ensures Cell(d, j) == if j == p then 1 else 0
    {
      PlaceCells(1, p, j);
    }
    EmptyAfterPlace(board, 1, p, d);
  }

  /**
   * Under the generator assumption, on a board with an empty cell, the spawn
   * puts a single 2 (power 1) into the drawn empty cell, the one with exactly
   * as many empty cells below it as the draw says; PlacedTile then says what
   * that does to the board.
   */
  lemma SpawnedTile(board: bv64, seed: U32, gen: Gen)
    requires GenInRange(gen) && EmptyFrom(board, 0) > 0
    ensures var p := SpawnCell(board, seed, gen);
      p < 16 && Cell(board, p) == 0 &&
      EmptyFrom(board, 0) == gen(seed, 0, EmptyFrom(board, 0)) + EmptyFrom(board, p)
    ensures Spawned(board, seed, gen) == Place(1, SpawnCell(board, seed, gen))
  {
    var count := EmptyFrom(board, 0);
    var idx := gen(seed, 0, count);
    assert idx < count;
    ZeroFound(board, 0, idx);
    ZeroRank(board, 0, idx);
    TileAlwaysOne(gen, seed);
  }

  /**
   * `board | tile`, the or that puts a new tile on the board; a function of
   * its own so that the lemmas below can name the result.
   */
  function Or(board: bv64, tile: bv64): bv64 {
    board | tile
  }

  /** Or-ing a tile into the empty cell p sets that cell to the tile. */
  lemma CellAtEmpty(b: bv64, t: bv64, p: bv8)
    requires t < 16 && p < 16 && Cell(b, p) == 0
    ensures Cell(b | Place(t, p), p) == t
  {
  }

  /** Or-ing a tile into the empty cell p sets that cell to the tile and keeps the others. */
  lemma CellAfterOr(board: bv64, d: bv64, t: bv64, p: bv8, j: bv8)
    requires t < 16 && p < 16 && Cell(board, p) == 0 && d == Place(t, p) && j < 16
    ensures Cell(Or(board, d), j) == if j == p then t else Cell(board, j)
  {
    if j == p {
      CellAtEmpty(board, t, p);
    } else {
      CellBesidePlace(board, t, p, j);
    }
  }

  /** Two boards with no bit in common. */
  predicate Disjoint(x: bv64, y: bv64) {
    x & y == 0
  }

  /** The board with its spawned tile or-ed in, `board | spawn_tile(board, seed)`. */
  ghost function WithTile(board: bv64, seed: U32, gen: Gen): bv64 {
    Or(board, Spawned(board, seed, gen))
  }

  /** Spawns a tile and or-s it into the board. */
  method AddTile(board: bv64, seed: U32, gen: Gen) returns (r: bv64)
    ensures r == WithTile(board, seed, gen)
  {
    var t := SpawnTile(board, seed, gen);
    r := board | t;
  }

  /** Under the generator assumption the spawned tile shares no bit with the board. */
  lemma SpawnedDisjoint(board: bv64, seed: U32, gen: Gen)
    requires GenInRange(gen)
    ensures Disjoint(Spawned(board, seed, gen), board)
  {
    if EmptyFrom(board, 0) > 0 {
      SpawnedTile(board, seed, gen);
      PlacedTile(board, Spawned(board, seed, gen), SpawnCell(board, seed, gen));
    } else {
      SpawnedOnFull(board, seed, gen);
    }
  }

  /** Under the generator assumption, on a board with an empty cell, the spawn has exactly one non-empty cell. */
  lemma SpawnedCells(board: bv64, seed: U32, gen: Gen)
    requires GenInRange(gen) && EmptyFrom(board, 0) > 0
    ensures forall j: bv8 | j < 16 ::
      Cell(Spawned(board, seed, gen), j) == if j == SpawnCell(board, seed, gen) then 1 else 0
  {
    SpawnedTile(board, seed, gen);
    PlacedTile(board, Spawned(board, seed, gen), SpawnCell(board, seed, gen));
  }

  /** One cell of the board after the spawn: the drawn cell holds a 2, every other cell is kept. */
  lemma WithTileCell(board: bv64, seed: U32, gen: Gen, j: bv8)
    requires GenInRange(gen) && EmptyFrom(board, 0) > 0 && j < 16
    ensures Cell(WithTile(board, seed, gen), j) == if j == SpawnCell(board, seed, gen) then 1 else Cell(board, j)
  {
    SpawnedTile(board, seed, gen);
    CellAfterOr(board, Spawned(board, seed, gen), 1, SpawnCell(board, seed, gen), j);
  }

  /**
   * Under the generator assumption, on a board with an empty cell, or-ing in
   * the spawn sets the drawn empty cell to 1 (a 2) and keeps every other cell.
   */
  lemma WithTileCells(board: bv64, seed: U32, gen: Gen)
    requires GenInRange(gen) && EmptyFrom(board, 0) > 0
    ensures forall j: bv8 | j < 16 ::
      Cell(WithTile(board, seed, gen), j) == if j == SpawnCell(board, seed, gen) then 1 else Cell(board, j)
  {
    forall j: bv8 | j < 16
      ensures Cell(WithTile(board, seed, gen), j) == if j == SpawnCell(board, seed, gen) then 1 else Cell(board, j)
    {
      WithTileCell(board, seed, gen, j);
    }
  }

  /** It also leaves one empty cell fewer. */
  lemma WithTileCount(board: bv64, seed: U32, gen: Gen)
    requires GenInRange(gen) && EmptyFrom(board, 0) > 0
    ensures EmptyFrom(WithTile(board, seed, gen), 0) + 1 == EmptyFrom(board, 0)
  {
    SpawnedTile(board, seed, gen);
    PlacedTile(board, Spawned(board, seed, gen), SpawnCell(board, seed, gen));
  }

  /** On a full board the spawn leaves the board as it was. */
  lemma WithTileOnFull(board: bv64, seed: U32, gen: Gen)
    requires EmptyFrom(board, 0) == 0
    ensures WithTile(board, seed, gen) == board
  {
    SpawnedOnFull(board, seed, gen);
  }

  /** A draw that finds no empty cell, as on a full board, adds no tile. */
  lemma SpawnedNothing(board: bv64, seed: U32, gen: Gen)
    requires EmptyFrom(board, 0) <= gen(seed, 0, EmptyFrom(board, 0))
    ensures Spawned(board, seed, gen) == 0
  {
    ZeroMissing(board, 0, gen(seed, 0, EmptyFrom(board, 0)));
  }

  /** On a full board every spawn adds nothing, whatever the generator draws. */
  lemma SpawnedOnFull(board: bv64, seed: U32, gen: Gen)
    requires EmptyFrom(board, 0) == 0
    ensures Spawned(board, seed, gen) == 0
  {
    SpawnedNothing(board, seed, gen);
  }
}
