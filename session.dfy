/**
 * A game session: the board and the seed of a `Game` (src/game.rs:147-150),
 * the constructor that opens a game with two spawned tiles
 * (src/game.rs:175-185) and `execute`, which plays a sequence of moves on a
 * copy of the board and spawns one tile after a single move
 * (src/game.rs:212-231). The move and score tables are a parameter, as in
 * the engine; the random generator is the `Gen` parameter of the spawn.
 */
module Session {
  import opened Tables
  import opened Engine
  import opened Spawn

  /** `seed + 1` on a u32, wrapping past the largest seed to 0. */
  function Succ(seed: U32): (s: U32)
    ensures seed as int < 0xFFFF_FFFF ==> s as int == seed as int + 1
    ensures seed as int == 0xFFFF_FFFF ==> s == 0
  {
    ((seed as int + 1) % 0x1_0000_0000) as U32
  }

  /** The opening board: a tile spawned on the empty board, then one more with the next seed. */
  ghost function NewBoard(seed: U32, gen: Gen): bv64 {
    WithTile(WithTile(0, seed, gen), Succ(seed), gen)
  }

  /** Under the generator assumption a new game has exactly fourteen empty cells. */
  lemma NewBoardCount(seed: U32, gen: Gen)
    requires GenInRange(gen)
    ensures EmptyFrom(NewBoard(seed, gen), 0) == 14
  {
    EmptyOfZero(0);
    WithTileCount(0, seed, gen);
    WithTileCount(WithTile(0, seed, gen), Succ(seed), gen);
  }

  /** ... and its two tiles are both 2s: every cell is 0 or 1. */
  lemma NewBoardTiles(seed: U32, gen: Gen)
    requires GenInRange(gen)
    ensures forall j: bv8 | j < 16 :: Cell(NewBoard(seed, gen), j) <= 1
  {
    EmptyOfZero(0);
    WithTileCount(0, seed, gen);
    WithTileCells(0, seed, gen);
    WithTileCells(WithTile(0, seed, gen), Succ(seed), gen);
  }

  /**
   * The board after the moves of ds, made in order, each by step: the loop of
   * src/game.rs:213-221. No move leaves the board, one move is that move.
   */
  function Apply(step: (bv64, Direction) -> bv64, board: bv64, ds: seq<Direction>): (r: bv64)
    ensures ds == [] ==> r == board
    ensures |ds| == 1 ==> r == step(board, ds[0])
    decreases |ds|
  {
    if ds == [] then board else step(Apply(step, board, ds[..|ds| - 1]), ds[|ds| - 1])
  }

  /** Making xs then ys is making xs + ys: the moves are folded in list order. */
  lemma {:induction false} ApplyConcat(step: (bv64, Direction) -> bv64, board: bv64, xs: seq<Direction>, ys: seq<Direction>)
    ensures Apply(step, board, xs + ys) == Apply(step, Apply(step, board, xs), ys)
    decreases |ys|
  {
    if ys == [] {
      assert xs + ys == xs;
    } else {
      var init := ys[..|ys| - 1];
      ApplyConcat(step, board, xs, init);
      assert (xs + ys)[..|xs + ys| - 1] == xs + init;
    }
  }

  /** A single move is the move itself. */
  lemma ApplyOne(step: (bv64, Direction) -> bv64, board: bv64, d: Direction)
    ensures Apply(step, board, [d]) == step(board, d)
  {
    assert [d][..0] == [];
  }

  /** Folding in list order: the first move is made first. */
  lemma ApplyFirst(step: (bv64, Direction) -> bv64, board: bv64, ds: seq<Direction>)
    requires |ds| >= 1
    ensures Apply(step, board, ds) == Apply(step, step(board, ds[0]), ds[1..])
  {
    ApplyConcat(step, board, [ds[0]], ds[1..]);
    ApplyOne(step, board, ds[0]);
    assert [ds[0]] + ds[1..] == ds;
  }

  /** The move of `execute` for one direction (src/game.rs:215-220). */
  function Moving(m: Moves): (bv64, Direction) -> bv64
    requires Valid(m)
  {
    (b: bv64, d: Direction) => Move(m, b, d)
  }

  /** The example of the documentation of `execute`, whose spawn it leaves out. */
  lemma ApplyExample(m: Moves)
    requires Valid(m)
    ensures Apply(Moving(m), 0x0000_0000_0022_1100, [Left]) == 0x0000_0000_3000_2000
  {
    ApplyMove(m, 0x0000_0000_0022_1100, Left);
    MoveLeftExample(m);
  }

  /** A single move of `execute`, before the spawn, is the engine's move. */
  lemma ApplyMove(m: Moves, board: bv64, d: Direction)
    requires Valid(m)
    ensures Apply(Moving(m), board, [d]) == Move(m, board, d)
  {
    ApplyOne(Moving(m), board, d);
  }

  /** What `execute` returns: the moves folded over the board, and a spawn after a single move. */
  ghost function Executed(m: Moves, board: bv64, seed: U32, gen: Gen, ds: seq<Direction>): bv64
    requires Valid(m)
  {
    var moved := Apply(Moving(m), board, ds);
    if |ds| == 1 then WithTile(moved, seed, gen) else moved
  }

  /**
   * A single move spawns a tile when the moved board has an empty cell: the
   * drawn empty cell gets a 2 and every other cell keeps what the move made,
   * so one empty cell fewer remains; on a full moved board nothing is added.
   */
  lemma ExecutedOne(m: Moves, board: bv64, seed: U32, gen: Gen, d: Direction)
    requires Valid(m) && GenInRange(gen)
    ensures var moved := Move(m, board, d);
      var r := Executed(m, board, seed, gen, [d]);
      (EmptyFrom(moved, 0) == 0 ==> r == moved) &&
      (EmptyFrom(moved, 0) > 0 ==>
        EmptyFrom(r, 0) + 1 == EmptyFrom(moved, 0) &&
        forall j: bv8 | j < 16 :: Cell(r, j) == if j == SpawnCell(moved, seed, gen) then 1 else Cell(moved, j))
  {
    var moved := Move(m, board, d);
    ExecutedSingle(m, board, seed, gen, d);
    if EmptyFrom(moved, 0) == 0 {
      WithTileOnFull(moved, seed, gen);
    } else {
      WithTileCount(moved, seed, gen);
      WithTileCells(moved, seed, gen);
    }
  }

  /** A single move is the move followed by the spawn. */
  lemma ExecutedSingle(m: Moves, board: bv64, seed: U32, gen: Gen, d: Direction)
    requires Valid(m)
    ensures Executed(m, board, seed, gen, [d]) == WithTile(Move(m, board, d), seed, gen)
  {
    ApplyMove(m, board, d);
  }

  /** Two or more moves are only folded: no tile is spawned between or after them. */
  lemma ExecutedMany(m: Moves, board: bv64, seed: U32, gen: Gen, ds: seq<Direction>)
    requires Valid(m) && |ds| >= 2
    ensures Executed(m, board, seed, gen, ds) ==
      Apply(Moving(m), Move(m, board, ds[0]), ds[1..])
  {
    ApplyFirst(Moving(m), board, ds);
  }

  class Game {
    var board: bv64
    var seed: U32

    /** A new game: two tiles spawned on the empty board, with seed and seed + 1. */
    constructor (seed: U32, gen: Gen)
      ensures this.board == NewBoard(seed, gen) && this.seed == seed
    {
      board := 0;
      this.seed := seed;
      new;
      board := AddTile(board, this.seed, gen);
      board := AddTile(board, Succ(this.seed), gen);
    }

    /**
     * The board after the moves of `directions`, with one tile spawned when
     * there is exactly one move; the game itself is left as it was.
     */
    method Execute(m: Moves, directions: seq<Direction>, gen: Gen) returns (current: bv64)
      requires Valid(m)
      ensures current == Executed(m, board, seed, gen, directions)
      ensures directions == [] ==> current == board
    {
      current := board;
      for i := 0 to |directions|
        invariant current == Apply(Moving(m), board, directions[..i])
      {
        assert directions[..i + 1][..i] == directions[..i];
        current := Move(m, current, directions[i]);
      }
      assert directions[..|directions|] == directions;
      if |directions| == 1 {
        current := AddTile(current, seed, gen);
      }
    }
  }
}
