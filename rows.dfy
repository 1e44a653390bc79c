/**
 * One row of the board as four cells, and the slide/merge step that the move
 * tables are built from (src/game.rs:59-117).
 *
 * The source slides every row toward cell 0 (the lowest nybble); the other
 * three directions are obtained from this one by reversing and transposing.
 * Cells are powers of two, 0 meaning empty.
 */
module Rows {
  import opened Bits

  /**
   * The power of the tile made by merging two tiles of power c. A 0xF pair
   * stays 0xF, so one of the two tiles disappears (src/game.rs:105).
   */
  function Promote(c: bv4): (p: bv4)
    ensures c != 0 ==> p != 0
    ensures c != 0xF ==> p as int == c as int + 1
    ensures c == 0xF ==> p == 0xF
  {
    if c != 0xF then c + 1 else c
  }

  /** The non-empty cells of a line, in order. */
  function NonZeros(s: seq<bv4>): (r: seq<bv4>)
    ensures |r| <= |s|
    ensures forall k | 0 <= k < |r| :: r[k] != 0
  {
    if |s| == 0 then []
    else if s[0] != 0 then
      assert s == [s[0]] + s[1..];
      [s[0]] + NonZeros(s[1..])
    else
      assert s == [s[0]] + s[1..];
      NonZeros(s[1..])
  }

  /**
   * Merges equal neighbours of a line of non-empty cells, front to back; a
   * merged cell is not merged again.
   */
  function Merge(s: seq<bv4>): (r: seq<bv4>)
    ensures |r| <= |s| <= 2 * |r|
    ensures (forall k | 0 <= k < |s| :: s[k] != 0) ==> forall k | 0 <= k < |r| :: r[k] != 0
  {
    if |s| < 2 then s
    else if s[0] == s[1] then [Promote(s[0])] + Merge(s[2..])
    else [s[0]] + Merge(s[1..])
  }

  /** Extends a line with empty cells up to length n. */
  function Pad(s: seq<bv4>, n: nat): (r: seq<bv4>)
    requires |s| <= n
    ensures |r| == n && r[..|s|] == s
    ensures forall k | |s| <= k < n :: r[k] == 0
  {
    s + seq(n - |s|, _ => 0)
  }

  /**
   * The line after a move toward cell 0: the non-empty cells, merged, then
   * empty cells.
   */
  function Slide(line: seq<bv4>): (r: seq<bv4>)
    ensures |r| == |line|
  {
    Pad(Merge(NonZeros(line)), |line|)
  }

  /** No non-empty cell comes after an empty one. */
  ghost predicate Packed(s: seq<bv4>) {
    forall i, j | 0 <= i < j < |s| :: s[i] == 0 ==> s[j] == 0
  }

  /**
   * A slid line keeps its length, is packed toward cell 0, has
   * no more tiles than before, and at least half as many. That no cell is
   * merged twice comes from Merge, which continues after a merged pair.
   */
  lemma SlideShape(line: seq<bv4>)
    ensures |Slide(line)| == |line|
    ensures Packed(Slide(line))
    ensures NonZeros(Slide(line)) == Merge(NonZeros(line))
    ensures |NonZeros(Slide(line))| <= |NonZeros(line)| <= 2 * |NonZeros(Slide(line))|
  {
    var m := Merge(NonZeros(line));
    var r := Slide(line);
    assert r == m + seq(|line| - |m|, _ => 0);
    NonZerosOfPadded(m, |line| - |m|);
  }

  /** Dropping the empty cells of a non-empty prefix followed by zeros. */
  lemma {:induction false} NonZerosOfPadded(m: seq<bv4>, z: nat)
    requires forall k | 0 <= k < |m| :: m[k] != 0
    ensures NonZeros(m + seq(z, _ => 0)) == m
    decreases |m| + z
  {
    var s := m + seq(z, _ => 0);
    if |m| > 0 {
      assert s[1..] == m[1..] + seq(z, _ => 0);
      NonZerosOfPadded(m[1..], z);
    } else if z > 0 {
      assert s[1..] == seq(z - 1, _ => 0);
      NonZerosOfPadded(m, z - 1);
      assert m + seq(z - 1, _ => 0) == seq(z - 1, _ => 0);
    } else {
      assert s == [];
    }
  }

  // ---- the imperative slide of src/game.rs:80-111 ----

  /** Empty cells between a and b do not contribute to NonZeros. */
  lemma {:induction false} NonZerosSkip(s: seq<bv4>, a: nat, b: nat)
    requires a <= b <= |s|
    requires forall k | a <= k < b :: s[k] == 0
    ensures NonZeros(s[a..]) == NonZeros(s[b..])
    decreases b - a
  {
    if a < b {
      assert s[a..][1..] == s[a + 1..];
      NonZerosSkip(s, a + 1, b);
    }
  }

  lemma NonZerosAt(s: seq<bv4>, a: nat)
    requires a < |s| && s[a] != 0
    ensures NonZeros(s[a..]) == [s[a]] + NonZeros(s[a + 1..])
  {
    assert s[a..][1..] == s[a + 1..];
  }

  lemma MergePair(a: bv4, b: bv4, rest: seq<bv4>)
    requires a == b
    ensures Merge([a, b] + rest) == [Promote(a)] + Merge(rest)
  {
    assert ([a, b] + rest)[2..] == rest;
  }

  lemma MergeKeep(a: bv4, b: bv4, rest: seq<bv4>)
    requires a != b
    ensures Merge([a, b] + rest) == [a] + Merge([b] + rest)
  {
    assert ([a, b] + rest)[1..] == [b] + rest;
  }

  /** Moving the next tile into the empty cell i keeps the merged result. */
  lemma ShiftStep(s: seq<bv4>, i: nat, j: nat)
    requires i < j < |s| && s[i] == 0 && s[j] != 0
    requires forall k | i < k < j :: s[k] == 0
    ensures var t := s[i := s[j]][j := 0];
      t[..i] == s[..i] && NonZeros(t[i..]) == NonZeros(s[i..])
  {
    var t := s[i := s[j]][j := 0];
    NonZerosSkip(s, i, j);
    NonZerosAt(s, j);
    NonZerosAt(t, i);
    NonZerosSkip(t, i + 1, j + 1);
    assert t[j + 1..] == s[j + 1..];
  }

  /** Merging cell i with the equal tile at j emits the promoted tile. */
  lemma MergeStep(s: seq<bv4>, i: nat, j: nat)
    requires i < j < |s| && s[i] != 0 && s[i] == s[j]
    requires forall k | i < k < j :: s[k] == 0
    ensures var t := s[i := Promote(s[i])][j := 0];
      t[..i + 1] + Merge(NonZeros(t[i + 1..])) == s[..i] + Merge(NonZeros(s[i..]))
  {
    var t := s[i := Promote(s[i])][j := 0];
    var rest := NonZeros(s[j + 1..]);
    MergeStepHead(s, i, j);
    MergePair(s[i], s[j], rest);
    MergeStepTail(s, i, j);
    PromotedPrefix(s, i, j);
    AppendAssoc(s[..i], [Promote(s[i])], Merge(rest));
  }

  /** The promoted line up to cell i is the old prefix and the promoted tile. */
  lemma PromotedPrefix(s: seq<bv4>, i: nat, j: nat)
    requires i < j < |s|
    ensures s[i := Promote(s[i])][j := 0][..i + 1] == s[..i] + [Promote(s[i])]
  {
  }

  lemma MergeStepHead(s: seq<bv4>, i: nat, j: nat)
    requires i < j < |s| && s[i] != 0 && s[j] != 0
    requires forall k | i < k < j :: s[k] == 0
    ensures NonZeros(s[i..]) == [s[i], s[j]] + NonZeros(s[j + 1..])
  {
    NonZerosAt(s, i);
    NonZerosSkip(s, i + 1, j);
    NonZerosAt(s, j);
  }

  lemma MergeStepTail(s: seq<bv4>, i: nat, j: nat)
    requires i < j < |s|
    requires forall k | i < k < j :: s[k] == 0
    ensures NonZeros(s[i := Promote(s[i])][j := 0][i + 1..]) == NonZeros(s[j + 1..])
  {
    var t := s[i := Promote(s[i])][j := 0];
    NonZerosSkip(t, i + 1, j + 1);
    assert t[j + 1..] == s[j + 1..];
  }

  /** A tile at i whose next tile differs is emitted unchanged. */
  lemma KeepStep(s: seq<bv4>, i: nat, j: nat)
    requires i < j < |s| && s[i] != 0 && s[j] != 0 && s[i] != s[j]
    requires forall k | i < k < j :: s[k] == 0
    ensures s[..i + 1] + Merge(NonZeros(s[i + 1..])) == s[..i] + Merge(NonZeros(s[i..]))
  {
    var rest := NonZeros(s[j + 1..]);
    MergeStepHead(s, i, j);
    KeepTail(s, i, j);
    MergeKeep(s[i], s[j], rest);
    assert s[..i + 1] == s[..i] + [s[i]];
    AppendAssoc(s[..i], [s[i]], Merge([s[j]] + rest));
  }

  /** After cell i, the non-empty cells start with the tile at j. */
  lemma KeepTail(s: seq<bv4>, i: nat, j: nat)
    requires i < j < |s| && s[j] != 0
    requires forall k | i < k < j :: s[k] == 0
    ensures NonZeros(s[i + 1..]) == [s[j]] + NonZeros(s[j + 1..])
  {
    NonZerosSkip(s, i + 1, j);
    NonZerosAt(s, j);
  }

  lemma AppendAssoc(a: seq<bv4>, b: seq<bv4>, c: seq<bv4>)
    ensures (a + b) + c == a + (b + c)
  {
  }

  /** When only empty cells follow cell i, the line is already in final form. */
  lemma SlideDone(s: seq<bv4>, i: nat)
    requires i < |s|
    requires forall k | i < k < |s| :: s[k] == 0
    ensures s == Pad(s[..i] + Merge(NonZeros(s[i..])), |s|)
  {
    NonZerosSkip(s, i + 1, |s|);
    assert s[|s|..] == [];
    if s[i] != 0 {
      NonZerosAt(s, i);
    } else {
      assert s[i..][1..] == s[i + 1..];
    }
    var r := Pad(s[..i] + Merge(NonZeros(s[i..])), |s|);
    assert forall k | 0 <= k < |s| :: r[k] == s[k];
  }

  /** The first non-empty cell of s at or after j, or |s| when there is none. */
  function NextNonZero(s: seq<bv4>, j: nat): (n: nat)
    requires j <= |s|
    ensures j <= n <= |s|
    ensures forall k | j <= k < n :: s[k] == 0
    ensures n < |s| ==> s[n] != 0
    decreases |s| - j
  {
    if j == |s| || s[j] != 0 then j else NextNonZero(s, j + 1)
  }

  /**
   * The two-cursor loop of src/game.rs:80-111 on a sequence of four cells,
   * from output position i on; one step per iteration of the source loop.
   */
  ghost function SlideFrom(s: seq<bv4>, i: nat): seq<bv4>
    requires |s| == 4 && i <= 3
    decreases 3 - i, if s[i] == 0 then 1 else 0
  {
    if i == 3 then s
    else
      var j := NextNonZero(s, i + 1);
      if j == 4 then s
      else if s[i] == 0 then SlideFrom(s[i := s[j]][j := 0], i)
      else if s[i] == s[j] then SlideFrom(s[i := Promote(s[i])][j := 0], i + 1)
      else SlideFrom(s, i + 1)
  }

  /** Each step of the loop keeps the merged result, so the loop computes Slide. */
  lemma {:induction false} SlideFromSlides(s: seq<bv4>, i: nat)
    requires |s| == 4 && i <= 3
    ensures SlideFrom(s, i) == Pad(s[..i] + Merge(NonZeros(s[i..])), 4)
    decreases 3 - i, if s[i] == 0 then 1 else 0
  {
    if i == 3 || NextNonZero(s, i + 1) == 4 {
      SlideDone(s, i);
    } else {
      var j := NextNonZero(s, i + 1);
      if s[i] == 0 {
        var t := s[i := s[j]][j := 0];
        ShiftStep(s, i, j);
        SlideFromShift(s, i, j);
        SlideFromSlides(t, i);
      } else if s[i] == s[j] {
        var t := s[i := Promote(s[i])][j := 0];
        MergeStep(s, i, j);
        SlideFromMerge(s, i, j);
        SlideFromSlides(t, i + 1);
      } else {
        KeepStep(s, i, j);
        SlideFromSlides(s, i + 1);
      }
    }
  }

  /** Run from the first cell, the loop computes Slide. */
  lemma SlideFromComputes(s: seq<bv4>)
    requires |s| == 4
    ensures SlideFrom(s, 0) == Slide(s)
  {
    SlideFromSlides(s, 0);
    assert s[..0] == [] && s[0..] == s;
  }

  /** The loop stops at the last cell, or when no tile follows cell i. */
  lemma SlideFromStop(s: seq<bv4>, i: nat)
    requires |s| == 4 && i <= 3 && (i == 3 || NextNonZero(s, i + 1) == 4)
    ensures SlideFrom(s, i) == s
  {
  }

  /** A step that keeps the tile at i, whose next tile differs, moves on to i + 1. */
  lemma SlideFromKeep(s: seq<bv4>, i: nat, j: nat)
    requires |s| == 4 && i < 3 && j == NextNonZero(s, i + 1) && j < 4 && s[i] != 0 && s[i] != s[j]
    ensures SlideFrom(s, i) == SlideFrom(s, i + 1)
  {
  }

  /** A step that moves the tile at j into the empty cell i stays at i. */
  lemma SlideFromShift(s: seq<bv4>, i: nat, j: nat)
    requires |s| == 4 && i < 3 && j == NextNonZero(s, i + 1) && j < 4 && s[i] == 0
    ensures SlideFrom(s, i) == SlideFrom(s[i := s[j]][j := 0], i)
  {
  }

  /** A step that merges the tile at j into cell i moves on to i + 1. */
  lemma SlideFromMerge(s: seq<bv4>, i: nat, j: nat)
    requires |s| == 4 && i < 3 && j == NextNonZero(s, i + 1) && j < 4 && s[i] != 0 && s[i] == s[j]
    ensures SlideFrom(s, i) == SlideFrom(s[i := Promote(s[i])][j := 0], i + 1)
  {
  }

  /**
   * The inner scan of src/game.rs:84-92: the first non-empty cell after i, or
   * 4 when there is none.
   */
  method NextTile(line: array<bv4>, i: nat) returns (j: nat)
    requires i < 3 && line.Length == 4
    ensures i < j <= 4
    ensures forall k | i < k < j :: line[k] == 0
    ensures j < 4 ==> line[j] != 0
  {
    j := i + 1;
    while j < 4
      invariant i + 1 <= j <= 4
      invariant forall k | i < k < j :: line[k] == 0
      decreases 4 - j
    {
      if line[j] != 0 {
        break;
      }
      j := j + 1;
    }
  }

  /**
   * The slide loop of src/game.rs:80-111 on a line of four cells, in place:
   * cursor i is the next output position, j the next tile after it.
   */
  method SlideLine(line: array<bv4>)
    requires line.Length == 4
    modifies line
    ensures line[..] == Slide(old(line[..]))
  {
    ghost var orig := line[..];
    var i := 0;
    while i < 3
      invariant 0 <= i <= 3
      invariant SlideFrom(line[..], i) == SlideFrom(orig, 0)
      decreases 3 - i, if line[i] == 0 then 1 else 0
    {
      var j := NextTile(line, i);
      if j == 4 {
        SlideFromStop(line[..], i);
        break;
      }

      ghost var s := line[..];
      assert j == NextNonZero(s, i + 1);
      if line[i] == 0 {
        line[i] := line[j];
        line[j] := 0;
        assert line[..] == s[i := s[j]][j := 0];
        SlideFromShift(s, i, j);
        continue;
      } else if line[i] == line[j] {
        if line[i] != 0xF {
          line[i] := line[i] + 1;
        }
        line[j] := 0;
        assert line[..] == s[i := Promote(s[i])][j := 0];
        SlideFromMerge(s, i, j);
      } else {
        SlideFromKeep(s, i, j);
      }
      i := i + 1;
    }
    if i == 3 {
      SlideFromStop(line[..], i);
    }
    SlideFromComputes(orig);
  }

  // ---- tile values: a slide never creates value, and keeps it below 0xF ----

  /** The face value 2^c of a tile of power c. */
  function Face(c: bv4): (v: nat)
    ensures v >= 1
  {
    ((1 as bv64) << (c as bv64)) as int
  }

  /** A tile one power up is worth twice as much. */
  lemma FaceDouble(c: bv4)
    requires c != 0xF
    ensures Face(c + 1) == 2 * Face(c)
  {
    assert ((1 as bv64) << ((c + 1) as bv64)) == 2 * ((1 as bv64) << (c as bv64));
  }

  /** The face value of a cell, 0 for an empty cell. */
  function TileValue(c: bv4): nat {
    if c == 0 then 0 else Face(c)
  }

  /** The total face value of a line. */
  function Value(s: seq<bv4>): nat {
    if |s| == 0 then 0 else TileValue(s[0]) + Value(s[1..])
  }

  lemma {:induction false} ValueConcat(a: seq<bv4>, b: seq<bv4>)
    ensures Value(a + b) == Value(a) + Value(b)
    decreases |a|
  {
    if |a| > 0 {
      assert (a + b)[1..] == a[1..] + b;
      ValueConcat(a[1..], b);
    } else {
      assert a + b == b;
    }
  }

  lemma {:induction false} ValueNonZeros(s: seq<bv4>)
    ensures Value(NonZeros(s)) == Value(s)
    decreases |s|
  {
    if |s| > 0 {
      ValueNonZeros(s[1..]);
      if s[0] != 0 {
        assert NonZeros(s) == [s[0]] + NonZeros(s[1..]);
        ValueConcat([s[0]], NonZeros(s[1..]));
      }
    }
  }

  lemma {:induction false} ValueZeros(z: nat)
    ensures Value(seq(z, _ => 0)) == 0
    decreases z
  {
    if z > 0 {
      var s: seq<bv4> := seq(z, _ => 0);
      assert s[0] == 0 && s[1..] == seq(z - 1, _ => 0);
      ValueZeros(z - 1);
    }
  }

  /** Merging tiles never adds value (a 0xF pair loses half, src/game.rs:105). */
  lemma {:induction false} MergeValue(s: seq<bv4>)
    requires forall k | 0 <= k < |s| :: s[k] != 0
    ensures Value(Merge(s)) <= Value(s)
    decreases |s|
  {
    if |s| >= 2 {
      if s[0] == s[1] {
        MergeValuePair(s);
        PromoteValue(s[0]);
        MergeValue(s[2..]);
      } else {
        MergeValueKeep(s);
        MergeValue(s[1..]);
      }
    }
  }

  /** Without 0xF cells, merging keeps the value exactly. */
  lemma {:induction false} MergeValueExact(s: seq<bv4>)
    requires forall k | 0 <= k < |s| :: s[k] != 0 && s[k] != 0xF
    ensures Value(Merge(s)) == Value(s)
    decreases |s|
  {
    if |s| >= 2 {
      if s[0] == s[1] {
        MergeValuePair(s);
        PromoteValue(s[0]);
        MergeValueExact(s[2..]);
      } else {
        MergeValueKeep(s);
        MergeValueExact(s[1..]);
      }
    }
  }

  lemma MergeValuePair(s: seq<bv4>)
    requires |s| >= 2 && s[0] == s[1]
    ensures Value(s) == TileValue(s[0]) + TileValue(s[1]) + Value(s[2..])
    ensures Value(Merge(s)) == TileValue(Promote(s[0])) + Value(Merge(s[2..]))
  {
    assert s[1..][1..] == s[2..];
    ValueConcat([Promote(s[0])], Merge(s[2..]));
  }

  /** A merge doubles the face value of the tile, except for a 0xF pair. */
  lemma PromoteValue(c: bv4)
    requires c != 0
    ensures TileValue(Promote(c)) <= 2 * TileValue(c)
    ensures c != 0xF ==> TileValue(Promote(c)) == 2 * TileValue(c)
  {
    if c != 0xF {
      FaceDouble(c);
    }
  }

  lemma MergeValueKeep(s: seq<bv4>)
    requires |s| >= 2 && s[0] != s[1]
    ensures Value(s) == TileValue(s[0]) + Value(s[1..])
    ensures Value(Merge(s)) == TileValue(s[0]) + Value(Merge(s[1..]))
  {
    ValueConcat([s[0]], Merge(s[1..]));
  }

  /** NonZeros only drops cells, so a value absent from s is absent from it. */
  lemma {:induction false} NonZerosAvoids(s: seq<bv4>, v: bv4)
    requires forall k | 0 <= k < |s| :: s[k] != v
    ensures forall k | 0 <= k < |NonZeros(s)| :: NonZeros(s)[k] != v
    decreases |s|
  {
    if |s| > 0 {
      NonZerosAvoids(s[1..], v);
    }
  }

  /**
   * A slide never increases the total face value of a line, and keeps it when
   * no cell holds 0xF.
   */
  lemma SlideValue(line: seq<bv4>)
    ensures Value(Slide(line)) <= Value(line)
    ensures (forall k | 0 <= k < |line| :: line[k] != 0xF) ==> Value(Slide(line)) == Value(line)
  {
    var n := NonZeros(line);
    var m := Merge(n);
    MergeValue(n);
    if forall k | 0 <= k < |line| :: line[k] != 0xF {
      NonZerosAvoids(line, 0xF);
      MergeValueExact(n);
    }
    ValueNonZeros(line);
    assert Slide(line) == m + seq(|line| - |m|, _ => 0);
    ValueConcat(m, seq(|line| - |m|, _ => 0));
    ValueZeros(|line| - |m|);
  }

  /** Two 0xF tiles merge into one 0xF tile: half of the value is lost. */
  lemma SlideFifteens()
    ensures Slide([0xF, 0xF, 0, 0]) == [0xF, 0, 0, 0]
    ensures Value([0xF, 0xF, 0, 0]) == 2 * Value([0xF, 0, 0, 0])
  {
    assert NonZeros([0xF, 0xF, 0, 0]) == [0xF, 0xF];
  }

  // ---- the row score (src/game.rs:68-75) ----

  /**
   * The score of one cell, `(t - 1) * (2 << t)` for t > 1 and 0 otherwise. The
   * two factors are the source's u64 values; their product is taken unbounded,
   * and CellScoreBound shows it stays far below 2^64.
   */
  function CellScore(t: bv4): nat {
    if t > 1 then (t as int - 1) * (((2 as bv64) << (t as bv64)) as int) else 0
  }

  /** `2 << t` is twice the face value of t. */
  lemma TwoShift(t: bv4)
    ensures ((2 as bv64) << (t as bv64)) as int == 2 * Face(t)
  {
    assert ((2 as bv64) << (t as bv64)) == 2 * ((1 as bv64) << (t as bv64));
  }

  /** A cell scores at most 14 * 2^16, so the u64 arithmetic never wraps. */
  lemma CellScoreBound(t: bv4)
    ensures CellScore(t) <= 14 * 0x10000
  {
    assert (2 as bv64) << (t as bv64) <= 0x10000;
    assert t as int <= 15;
  }

  /** Sum of the cell scores of a line. */
  function CellsScore(c: seq<bv4>): nat {
    if |c| == 0 then 0 else CellsScore(c[..|c| - 1]) + CellScore(c[|c| - 1])
  }

  /**
   * The scoring loop of src/game.rs:68-75 over the four cells of a line.
   */
  method ScoreLine(line: array<bv4>) returns (s: nat)
    requires line.Length == 4
    ensures s == CellsScore(line[..])
  {
    s := 0;
    for k := 0 to 4
      invariant s == CellsScore(line[..k])
    {
      var tile := line[k];
      if tile > 1 {
        s := s + (tile as int - 1) * (((2 as bv64) << (tile as bv64)) as int);
      }
      assert line[..k + 1][..k] == line[..k];
    }
    assert line[..4] == line[..];
  }

  lemma {:induction false} CellsScoreConcat(a: seq<bv4>, b: seq<bv4>)
    ensures CellsScore(a + b) == CellsScore(a) + CellsScore(b)
    decreases |b|
  {
    if |b| == 0 {
      assert a + b == a;
    } else {
      assert (a + b)[..|a + b| - 1] == a + b[..|b| - 1];
      CellsScoreConcat(a, b[..|b| - 1]);
    }
  }

  /** A line of n cells scores at most n * 14 * 2^16. */
  lemma {:induction false} CellsScoreBound(c: seq<bv4>)
    ensures CellsScore(c) <= |c| * (14 * 0x10000)
    decreases |c|
  {
    if |c| > 0 {
      CellsScoreBound(c[..|c| - 1]);
      CellScoreBound(c[|c| - 1]);
    }
  }

  /** Removing cell p from a line removes its score from the sum. */
  lemma CellsScoreRemove(b: seq<bv4>, p: nat)
    requires p < |b|
    ensures CellsScore(b) == CellsScore(b[..p] + b[p + 1..]) + CellScore(b[p])
  {
    var pre, x, post := b[..p], b[p], b[p + 1..];
    assert b[p..] == [x] + post;
    assert b == pre + b[p..];
    CellsScoreConcat(pre, [x] + post);
    CellsScoreConcat([x], post);
    CellsScoreConcat(pre, post);
    CellsScoreOne(x);
  }

  /** A single cell scores its own score. */
  lemma CellsScoreOne(x: bv4)
    ensures CellsScore([x]) == CellScore(x)
  {
    assert [x][..0] == [];
  }

  /** A line's score does not depend on the order of its cells. */
  lemma {:induction false} CellsScorePermutation(a: seq<bv4>, b: seq<bv4>)
    requires multiset(a) == multiset(b)
    ensures CellsScore(a) == CellsScore(b)
    decreases |a|
  {
    if |a| > 0 {
      var n := |a| - 1;
      assert a[n] in multiset(b);
      var p :| 0 <= p < |b| && b[p] == a[n];
      RemoveMatching(a, b, p);
      CellsScorePermutation(a[..n], b[..p] + b[p + 1..]);
      CellsScoreRemove(b, p);
    }
  }

  /** Removing the last cell of a and an equal cell of b keeps two permutations permutations. */
  lemma RemoveMatching(a: seq<bv4>, b: seq<bv4>, p: nat)
    requires multiset(a) == multiset(b) && |a| > 0 && p < |b| && b[p] == a[|a| - 1]
    ensures multiset(a[..|a| - 1]) == multiset(b[..p] + b[p + 1..])
  {
    var n := |a| - 1;
    MultisetRemove(a, n);
    MultisetRemove(b, p);
    assert a[..n] + a[n + 1..] == a[..n];
  }

  lemma MultisetRemove(s: seq<bv4>, p: nat)
    requires p < |s|
    ensures multiset(s[..p] + s[p + 1..]) == multiset(s) - multiset{s[p]}
  {
    assert s == s[..p] + [s[p]] + s[p + 1..];
  }

  /**
   * The points the doc comment of src/game.rs:49-50 describes: a tile of power
   * t built from 2-tiles earned the merges of two tiles of power t - 1 plus the
   * new tile's face value.
   */
  function MergeTotal(t: bv4): nat
    decreases t
  {
    if t <= 1 then 0 else 2 * MergeTotal(t - 1) + Face(t)
  }

  lemma {:induction false} MergeTotalClosed(t: bv4)
    requires t >= 1
    ensures MergeTotal(t) == (t as int - 1) * Face(t)
    decreases t
  {
    if t > 1 {
      MergeTotalClosed(t - 1);
      FaceDouble(t - 1);
      assert (t - 1) + 1 == t;
      assert (t - 1) as int == t as int - 1;
      MergeTotalStep(t as int, Face(t - 1));
    }
  }

  /** The code's cell score is twice the points the doc comment describes. */
  lemma CellScoreIsTwiceMergeTotal(t: bv4)
    ensures CellScore(t) == 2 * MergeTotal(t)
  {
    if t > 1 {
      MergeTotalClosed(t);
      TwoShift(t);
      Twice(t as int - 1, Face(t));
    }
  }


  lemma MergeTotalStep(n: int, f: int)
    ensures 2 * ((n - 2) * f) + 2 * f == (n - 1) * (2 * f)
  {
  }

  lemma Twice(a: int, f: int)
    ensures a * (2 * f) == 2 * (a * f)
  {
  }
}
