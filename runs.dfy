/** Properties of the game over a sequence of frames. */
module Runs {
  import opened Config
  import opened Obstacles
  import opened Players
  import opened Rules

  /** What the engine hands one frame: elapsed time, key, and the random gap draw. */
  datatype Frame = Frame(elapsedMs: real, key: Option<Key>, gapY: int)

  predicate Drawable(fs: seq<Frame>)
  {
    forall i :: 0 <= i < |fs| ==> GapLow <= fs[i].gapY < GapHigh
  }

  /** The state after ticking through `fs` in order. */
  function Run(w: World, fs: seq<Frame>): World
    requires Drawable(fs)
    decreases |fs|
  {
    if fs == [] then w else Run(Tick(w, fs[0].elapsedMs, fs[0].key, fs[0].gapY), fs[1..])
  }

  /** Total elapsed milliseconds of `fs`. */
  function TotalMs(fs: seq<Frame>): real
  {
    if fs == [] then 0.0 else fs[0].elapsedMs + TotalMs(fs[1..])
  }

  /** Every reachable state keeps the invariant. */
  lemma {:induction false} RunKeepsInv(w: World, fs: seq<Frame>)
    requires Drawable(fs) && Inv(w)
    ensures Inv(Run(w, fs))
    decreases |fs|
  {
    if fs != [] {
      RunKeepsInv(Tick(w, fs[0].elapsedMs, fs[0].key, fs[0].gapY), fs[1..]);
    }
  }

  lemma {:induction false} RunFromStart(gapY: int, fs: seq<Frame>)
    requires GapLow <= gapY < GapHigh && Drawable(fs)
    ensures Inv(Run(Initial(gapY), fs))
    ensures Run(Initial(gapY), fs).player.y >= 0.0
    ensures Run(Initial(gapY), fs).obstacle.size == GapSize(Run(Initial(gapY), fs).score) >= 2
  {
    RunKeepsInv(Initial(gapY), fs);
  }

  /**
   * Since the player advances at most one column per frame and never stands
   * beyond the obstacle, an obstacle is only ever passed from a state in which
   * the player stood exactly on its column, where the collision test looked at it.
   */
  lemma NoSkippedObstacle(w: World, elapsedMs: real, key: Option<Key>, gapY: int)
    requires GapLow <= gapY < GapHigh && Inv(w) && w.mode == Playing
    requires Play(w, elapsedMs, key, gapY).score == w.score + 1
    ensures w.player.x == w.obstacle.x
    ensures Play(w, elapsedMs, key, gapY).player.x == w.obstacle.x + 1
  {
  }

  /** Without the P key the score never goes down: only a restart resets it. */
  lemma {:induction false} ScoreNeverDecreases(w: World, fs: seq<Frame>)
    requires Drawable(fs)
    requires forall i :: 0 <= i < |fs| ==> fs[i].key != Some(P)
    ensures Run(w, fs).score >= w.score
    ensures w.mode != Playing ==> Run(w, fs) == w
    decreases |fs|
  {
    if fs != [] {
      var w' := Tick(w, fs[0].elapsedMs, fs[0].key, fs[0].gapY);
      ScoreNeverDecreases(w', fs[1..]);
    }
  }

  /**
   * Frames whose running total of elapsed time stays at or below the frame
   * duration until the last one pushes it over cause exactly one physics step
   * (the column advances by one) and leave the accumulator at zero.
   */
  lemma {:induction false} AccumulateThenStep(w: World, fs: seq<Frame>)
    requires Drawable(fs) && Inv(w) && w.mode == Playing && |fs| >= 1
    requires forall k :: 1 <= k < |fs| ==> w.frameTime + TotalMs(fs[..k]) <= FrameDuration
    requires w.frameTime + TotalMs(fs) > FrameDuration
    ensures Run(w, fs).player.x == w.player.x + 1
    ensures Run(w, fs).frameTime == 0.0
    decreases |fs|
  {
    var f := fs[0];
    var w' := Tick(w, f.elapsedMs, f.key, f.gapY);
    if |fs| == 1 {
      assert TotalMs(fs) == f.elapsedMs;
    } else {
      assert fs[..1] == [f];
      assert TotalMs(fs[..1]) == f.elapsedMs;
      assert w'.frameTime == w.frameTime + f.elapsedMs;
      assert w'.player.x == w.player.x && w'.player.y == w.player.y;
      assert w'.mode == Playing;
      forall k | 1 <= k < |fs| - 1
        ensures w'.frameTime + TotalMs(fs[1..][..k]) <= FrameDuration
      {
        assert fs[..k + 1][1..] == fs[1..][..k];
      }
      assert TotalMs(fs) == f.elapsedMs + TotalMs(fs[1..]);
      AccumulateThenStep(w', fs[1..]);
    }
  }
}
