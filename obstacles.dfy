/** One vertical wall with a gap; the player must pass through the gap. */
module Obstacles {
  import opened Config

  /** `gapY` is the centre row of the gap and `size` its nominal height. */
  datatype Obstacle = Obstacle(x: int, gapY: int, size: int)

  /** The gap narrows by one row per point scored, down to a floor of 2. */
  function GapSize(score: int): (s: int)
    ensures s >= 2 && s >= 20 - score
    ensures s == 2 || s == 20 - score
  {
    if 20 - score > 2 then 20 - score else 2
  }

  lemma GapSizeNonIncreasing(s1: int, s2: int)
    requires s1 <= s2
    ensures GapSize(s2) <= GapSize(s1)
  {
  }

  /** What every obstacle built for score `score` satisfies. */
  predicate WellFormed(o: Obstacle, score: int)
  {
    GapLow <= o.gapY < GapHigh && o.size == GapSize(score)
  }

  /**
   * A new obstacle at column `x` for the current score; `gapY` is the
   * random draw, which the generator takes from [10, 40).
   */
  function NewObstacle(x: int, score: int, gapY: int): (o: Obstacle)
    requires GapLow <= gapY < GapHigh
    ensures o.x == x && o.gapY == gapY
    ensures WellFormed(o, score) && 2 <= o.size
    ensures score <= 18 ==> o.size == 20 - score
    ensures score >= 18 ==> o.size == 2
  {
    Obstacle(x, gapY, GapSize(score))
  }

  /** The rows the player may occupy at the obstacle's column: both bounds included. */
  predicate InGap(o: Obstacle, row: int)
  {
    o.gapY - o.size / 2 <= row <= o.gapY + o.size / 2
  }

  /**
   * Collision: only on the obstacle's own column, and only for a row
   * strictly above or strictly below the gap.
   */
  function HitObstacle(o: Obstacle, playerX: int, playerRow: int): (hit: bool)
    ensures playerX != o.x ==> !hit
    ensures hit <==> playerX == o.x && !InGap(o, playerRow)
  {
    var halfSize := o.size / 2;
    var doesXMatch := playerX == o.x;
    var playerAboveGap := playerRow < o.gapY - halfSize;
    var playerBelowGap := playerRow > o.gapY + halfSize;
    doesXMatch && (playerAboveGap || playerBelowGap)
  }

  /** The centre and both boundary rows are passable; one row beyond either boundary is not. */
  lemma GapBoundaries(o: Obstacle)
    requires o.size >= 0
    ensures !HitObstacle(o, o.x, o.gapY)
    ensures !HitObstacle(o, o.x, o.gapY - o.size / 2)
    ensures !HitObstacle(o, o.x, o.gapY + o.size / 2)
    ensures HitObstacle(o, o.x, o.gapY - o.size / 2 - 1)
    ensures HitObstacle(o, o.x, o.gapY + o.size / 2 + 1)
  {
  }

  /** The set of integers in [lo, hi]. */
  function RowsBetween(lo: int, hi: int): (rows: set<int>)
    ensures forall r :: r in rows <==> lo <= r <= hi
    decreases hi - lo
  {
    if lo > hi then {} else RowsBetween(lo, hi - 1) + {hi}
  }

  lemma {:induction false} RowsBetweenCount(lo: int, hi: int)
    requires lo <= hi + 1
    ensures |RowsBetween(lo, hi)| == hi - lo + 1
    decreases hi - lo
  {
    if lo <= hi {
      RowsBetweenCount(lo, hi - 1);
      assert hi !in RowsBetween(lo, hi - 1);
    }
  }

  /** The rows at which a player on the obstacle's column survives. */
  function PassableRows(o: Obstacle): (rows: set<int>)
    ensures forall r :: r in rows <==> !HitObstacle(o, o.x, r)
  {
    RowsBetween(o.gapY - o.size / 2, o.gapY + o.size / 2)
  }

  /**
   * The passable rows of an obstacle number 2 * (size / 2) + 1: for an
   * even size that is one row more than `size`.
   */
  lemma PassableRowCount(o: Obstacle)
    requires o.size >= 0
    ensures |PassableRows(o)| == 2 * (o.size / 2) + 1
    ensures o.size % 2 == 0 ==> |PassableRows(o)| == o.size + 1
  {
    RowsBetweenCount(o.gapY - o.size / 2, o.gapY + o.size / 2);
  }
}
