/** Level generation of main.js: the per-level speed factor, the brick count and grid shape,
    the brick layout, the balls a level starts with, and the level that follows a cleared one. */
module Levels {
  import opened Utils
  import opened Collision
  import opened Entities

  const MaxLevel: int := 5
  const Margin: real := 40.0
  const BrickHeight: real := 22.0
  const BrickGap: real := 10.0
  const BallRadius: real := 8.0

  /** speedFactorForLevel: 1.0, 1.2, 1.4, ... one fifth more per level. */
  function SpeedFactor(n: int): (k: real)
    ensures n >= 1 ==> k >= 1.0
    ensures n == 1 ==> k == 1.0
  {
    1.0 + (n - 1) as real * 0.2
  }

  /** Later levels are strictly faster. */
  lemma SpeedFactorIncreasing(m: int, n: int)
    requires m < n
    ensures SpeedFactor(m) < SpeedFactor(n)
  {
  }

  /** Number of bricks of level n: ten, five more per level, at most thirty. */
  function BrickCount(n: int): (c: int)
    ensures c <= 30
    ensures n >= 1 ==> c >= 10
    ensures n >= MaxLevel ==> c == 30
  {
    if 10 + (n - 1) * 5 <= 30 then 10 + (n - 1) * 5 else 30
  }

  /** Below the cap, each level has five bricks more than the previous one. */
  lemma BrickCountGrowth(n: int)
    requires 1 <= n < MaxLevel
    ensures BrickCount(n + 1) == BrickCount(n) + 5
  {
  }

  function Square(d: int): int { d * d }

  /** The least c >= from whose square reaches count. */
  function CeilSqrtFrom(count: nat, from: nat): (c: nat)
    ensures from <= c && Square(c) >= count
    ensures forall d :: from <= d < c ==> Square(d) < count
    decreases count - from
  {
    if Square(from) >= count then from
    else
      assert from <= Square(from) || from == 0;
      CeilSqrtFrom(count, from + 1)
  }

  /** Math.ceil(Math.sqrt(count)) for a non-negative integer count: the least c with c * c >= count. */
  function Cols(count: nat): (c: nat)
    ensures Square(c) >= count
    ensures c > 0 ==> Square(c - 1) < count
    ensures count >= 1 ==> c >= 1
  {
    CeilSqrtFrom(count, 0)
  }

  /** Math.ceil(count / cols) for positive cols. */
  function Rows(count: nat, cols: nat): nat
    requires cols >= 1
  {
    (count + cols - 1) / cols
  }

  function LevelCols(n: int): (c: nat)
    requires n >= 1
    ensures c >= 1
  {
    Cols(BrickCount(n))
  }

  function LevelRows(n: int): nat
    requires n >= 1
  {
    Rows(BrickCount(n), LevelCols(n))
  }

  /** The grid of Cols(count) columns and Rows(count) rows has room for all count bricks,
      its last row is not empty, and it is never taller than it is wide. */
  lemma GridHoldsCount(count: nat)
    requires count >= 1
    ensures Rows(count, Cols(count)) * Cols(count) >= count
    ensures (Rows(count, Cols(count)) - 1) * Cols(count) < count
    ensures Rows(count, Cols(count)) <= Cols(count)
  {
    var c := Cols(count);
    var a := count + c - 1;
    var q, m := a / c, a % c;
    assert a == q * c + m;
    assert (q - 1) * c == q * c - c;
    assert Square(c) == c * c;
    MulLeft(c + 1, q, c);
    assert (c + 1) * c == c * c + c;
  }

  /** Brick width: the grid width shared by the columns, less the gap, but at least 50. */
  function BrickWidth(n: int, worldW: real): (w: real)
    requires n >= 1
    ensures w >= 50.0
  {
    var gridW := worldW - Margin * 2.0;
    Max(50.0, ((gridW / LevelCols(n) as real).Floor - 10) as real)
  }

  /** The brick of level n in grid cell (row, col), with the odd-column nudge of odd levels
      and the odd-row nudge of levels divisible by three. */
  function BrickInCell(n: int, bw: real, row: nat, col: nat): Brick
  {
    var xoff := if n % 2 == 0 then 0.0 else 0.5;
    var yoff := if n % 3 == 0 then 0.5 else 0.0;
    var x := Margin + col as real * (bw + BrickGap) + (if col % 2 == 1 then xoff * 12.0 else 0.0);
    var y := Margin + row as real * (BrickHeight + BrickGap) + (if row % 2 == 1 then yoff * 12.0 else 0.0);
    Brick(x, y, bw, BrickHeight, 1, (row + col) % 4)
  }

  /** The i-th brick placed, the grid being filled row by row. */
  function BrickAt(n: int, worldW: real, i: nat): Brick
    requires n >= 1
  {
    BrickInCell(n, BrickWidth(n, worldW), i / LevelCols(n), i % LevelCols(n))
  }

  /** The bricks generateLevel(n) lays out, in placement order. */
  function LevelBricks(n: int, worldW: real): (bs: seq<Brick>)
    requires n >= 1
    ensures |bs| == BrickCount(n)
  {
    seq(BrickCount(n), i requires 0 <= i < BrickCount(n) => BrickAt(n, worldW, i))
  }

  /** Every brick of a level is a full-strength 22-high brick at least 50 wide, inside the
      margins, in a row of the grid, coloured by its cell as (row + col) mod 4. */
  lemma LevelBrickShape(n: int, worldW: real, i: int)
    requires n >= 1 && 0 <= i < BrickCount(n)
    ensures var b := LevelBricks(n, worldW)[i];
            && b.w >= 50.0 && b.h == 22.0 && b.hp == 1
            && b.x >= Margin && b.y >= Margin
            && i / LevelCols(n) < LevelRows(n)
            && b.color == (i / LevelCols(n) + i % LevelCols(n)) % 4 && b.color < 4
  {
    var cols, rows := LevelCols(n), LevelRows(n);
    var r, c := i / cols, i % cols;
    GridHoldsCount(BrickCount(n));
    assert i == r * cols + c;
    MulLeft(rows, r, cols);
    var bw := BrickWidth(n, worldW);
    assert LevelBricks(n, worldW)[i] == BrickInCell(n, bw, r, c);
    CellInsideMargins(n, bw, r, c);
  }

  /** A cell's brick starts at or beyond the top-left margin. */
  lemma CellInsideMargins(n: int, bw: real, r: nat, c: nat)
    requires bw >= 0.0
    ensures BrickInCell(n, bw, r, c).x >= Margin && BrickInCell(n, bw, r, c).y >= Margin
  {
    MulNonNegative(c as real, bw + BrickGap);
    MulNonNegative(r as real, BrickHeight + BrickGap);
  }

  /** No two bricks of a level overlap: neighbouring columns and rows are further apart
      than a brick is wide or high, even with the nudges. */
  lemma LevelBricksDisjoint(n: int, worldW: real, i: int, j: int)
    requires n >= 1 && 0 <= i < BrickCount(n) && 0 <= j < BrickCount(n) && i != j
    ensures var a, b := LevelBricks(n, worldW)[i], LevelBricks(n, worldW)[j];
            !Aabb(a.x, a.y, a.w, a.h, b.x, b.y, b.w, b.h)
  {
    var r1, c1 := CellOf(n, worldW, i);
    var r2, c2 := CellOf(n, worldW, j);
    PlacedApart(LevelBricks(n, worldW)[i], LevelBricks(n, worldW)[j], n, BrickWidth(n, worldW), r1, c1, r2, c2);
  }

  /** The i-th brick placed is the brick of cell (r, c) with i == r * cols + c. */
  lemma CellOf(n: int, worldW: real, i: int) returns (r: nat, c: nat)
    requires n >= 1 && 0 <= i < BrickCount(n)
    ensures i == r * LevelCols(n) + c && c < LevelCols(n)
    ensures LevelBricks(n, worldW)[i] == BrickInCell(n, BrickWidth(n, worldW), r, c)
  {
    var cols := LevelCols(n);
    r, c := i / cols, i % cols;
    assert LevelBricks(n, worldW)[i] == BrickAt(n, worldW, i);
  }

  /** Two bricks that are the bricks of two different cells do not overlap. */
  lemma PlacedApart(a: Brick, b: Brick, n: int, bw: real, r1: nat, c1: nat, r2: nat, c2: nat)
    requires bw >= 0.0 && (r1 != r2 || c1 != c2)
    requires a == BrickInCell(n, bw, r1, c1) && b == BrickInCell(n, bw, r2, c2)
    ensures !Aabb(a.x, a.y, a.w, a.h, b.x, b.y, b.w, b.h)
  {
    CellsApart(n, bw, r1, c1, r2, c2);
  }

  /** Bricks bw wide in two different cells do not overlap. */
  lemma CellsApart(n: int, bw: real, r1: nat, c1: nat, r2: nat, c2: nat)
    requires bw >= 0.0 && (r1 != r2 || c1 != c2)
    ensures var a, b := BrickInCell(n, bw, r1, c1), BrickInCell(n, bw, r2, c2);
            !Aabb(a.x, a.y, a.w, a.h, b.x, b.y, b.w, b.h)
  {
    if r1 < r2 {
      RowsApart(n, bw, r1, c1, r2, c2);
    } else if r2 < r1 {
      RowsApart(n, bw, r2, c2, r1, c1);
    } else if c1 < c2 {
      ColumnsApart(n, bw, r1, c1, r2, c2);
    } else {
      ColumnsApart(n, bw, r2, c2, r1, c1);
    }
  }

  /** A brick in an earlier row ends above every brick of a later row. */
  lemma RowsApart(n: int, bw: real, r1: nat, c1: nat, r2: nat, c2: nat)
    requires r1 < r2
    ensures BrickInCell(n, bw, r1, c1).y + BrickHeight < BrickInCell(n, bw, r2, c2).y
  {
  }

  /** A brick in an earlier column ends left of every brick of a later column: columns are
      a brick and a 10-pixel gap apart, and the odd-column nudge is at most 6. */
  lemma ColumnsApart(n: int, bw: real, r1: nat, c1: nat, r2: nat, c2: nat)
    requires bw >= 0.0 && c1 < c2
    ensures BrickInCell(n, bw, r1, c1).x + bw < BrickInCell(n, bw, r2, c2).x
  {
    ColumnStart(n, bw, r1, c1);
    ColumnStart(n, bw, r2, c2);
    ColumnGap(c1, c2, bw);
  }

  /** A brick starts where its column starts, nudged right by at most 6 pixels. */
  lemma ColumnStart(n: int, bw: real, r: nat, c: nat)
    ensures var start := Margin + c as real * (bw + BrickGap);
            start <= BrickInCell(n, bw, r, c).x <= start + 6.0
  {
  }

  /** Column c2 starts at least one brick and one gap after column c1 when c1 < c2. */
  lemma ColumnGap(c1: nat, c2: nat, bw: real)
    requires c1 < c2 && bw >= 0.0
    ensures c1 as real * (bw + BrickGap) + bw + BrickGap <= c2 as real * (bw + BrickGap)
  {
    var k := (c2 - c1 - 1) as real;
    assert c2 as real == c1 as real + 1.0 + k;
    assert c2 as real * (bw + BrickGap) == c1 as real * (bw + BrickGap) + (bw + BrickGap) + k * (bw + BrickGap);
    MulNonNegative(k, bw + BrickGap);
  }

  lemma MulLeft(a: int, b: int, c: int)
    ensures c >= 0 && a <= b ==> a * c <= b * c
  {
    if c >= 0 && a <= b {
      assert b * c - a * c == (b - a) * c;
    }
  }

  lemma MulNonNegative(a: real, b: real)
    ensures a >= 0.0 && b >= 0.0 ==> a * b >= 0.0
  {
  }

  /** makeBall: a ball resting above the middle of the world, not launched, moving up and
      sideways (to the left when `leftward`, the outcome of the coin flip) at the level's speed. */
  function MakeBall(levelNum: int, worldW: real, paddleY: real, leftward: bool): (b: Ball)
    ensures !b.launched && b.r == BallRadius
    ensures b.x == worldW / 2.0 && b.y == paddleY - 18.0
    ensures levelNum >= 1 ==> b.vy < 0.0 && b.vy == -280.0 * SpeedFactor(levelNum)
    ensures levelNum >= 1 ==> Abs(b.vx) == 240.0 * SpeedFactor(levelNum) && (b.vx < 0.0 <==> leftward)
  {
    var k := SpeedFactor(levelNum);
    var baseVX, baseVY := 240.0, -280.0;
    Ball(worldW / 2.0, paddleY - 18.0, (baseVX * (if leftward then -1.0 else 1.0)) * k, baseVY * k, BallRadius, false)
  }

  /** The balls generateLevel(n) leaves: the primary ball resting on the paddle, and on the
      last level two more, already launched, to its left and right, flying apart and up at
      the same vertical speed. */
  function LevelBalls(n: int, worldW: real, paddleY: real, leftward: bool): (bs: seq<Ball>)
    ensures |bs| == if n == MaxLevel then 3 else 1
    ensures bs[0] == MakeBall(n, worldW, paddleY, leftward) && !bs[0].launched
    ensures n == MaxLevel ==>
              && bs[1].launched && bs[2].launched
              && bs[1].vx < 0.0 < bs[2].vx
              && bs[1].vy == bs[2].vy < 0.0
              && bs[1].x < worldW / 2.0 < bs[2].x
              && bs[1].y == bs[2].y == paddleY - 18.0
  {
    var primary := MakeBall(n, worldW, paddleY, leftward);
    if n == MaxLevel then
      var k := SpeedFactor(n);
      var b2 := MakeBall(n, worldW, paddleY, leftward).(x := worldW / 2.0 - 30.0, y := paddleY - 18.0);
      var b3 := MakeBall(n, worldW, paddleY, leftward).(x := worldW / 2.0 + 30.0, y := paddleY - 18.0);
      [ primary,
        b2.(launched := true, vx := -260.0 * k, vy := -300.0 * k),
        b3.(launched := true, vx := 260.0 * k, vy := -300.0 * k) ]
    else
      [primary]
  }

  /** The level after l: one more, wrapping from the last level back to the first. */
  function NextLevelNumber(l: int): (r: int)
    ensures 0 <= l ==> 1 <= r <= MaxLevel
    ensures 1 <= l <= MaxLevel ==> r != l
    ensures l == MaxLevel ==> r == 1
  {
    var next := l + 1;
    if next > MaxLevel then 1 else next
  }

  /** The level reached from l after k cleared levels. */
  function LevelAfter(l: int, k: nat): int
    decreases k
  {
    if k == 0 then l else LevelAfter(NextLevelNumber(l), k - 1)
  }

  /** Levels cycle through 1..5 forever: after k clears, level l has become
      ((l - 1 + k) mod 5) + 1. */
  lemma {:induction false} LevelAfterCycle(l: int, k: nat)
    requires 1 <= l <= MaxLevel
    ensures LevelAfter(l, k) == (l - 1 + k) % MaxLevel + 1
    decreases k
  {
    if k > 0 {
      var m := NextLevelNumber(l);
      LevelAfterCycle(m, k - 1);
      if l == MaxLevel {
        assert (l - 1 + k) == (m - 1 + k - 1) + MaxLevel;
      }
    }
  }
}
