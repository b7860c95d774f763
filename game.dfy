/** The game controller the engine calls once per frame. */
module Game {
  import opened Config
  import opened Obstacles
  import opened Players
  import opened Rules

  class State {
    var mode: Mode
    const player: Player
    var frameTime: real
    var score: int
    var obstacle: Obstacle

    function Snapshot(): (w: World)
      reads this, player
      ensures w.mode == mode && w.player == player.Snapshot() && w.frameTime == frameTime
      ensures w.score == score && w.obstacle == obstacle
    {
      World(mode, player.Snapshot(), frameTime, score, obstacle)
    }

    ghost predicate Valid()
      reads this, player
    {
      Inv(Snapshot())
    }

    constructor (gapY: int)
      requires GapLow <= gapY < GapHigh
      ensures fresh(player)
      ensures Snapshot() == Initial(gapY) && Valid()
    {
      mode := Menu;
      frameTime := 0.0;
      player := new Player(StartX, StartY);
      obstacle := NewObstacle(ScreenWidth, 0, gapY);
      score := 0;
    }

    method Restart(gapY: int)
      requires GapLow <= gapY < GapHigh
      modifies this, player
      ensures Snapshot() == Rules.Restart(old(Snapshot()), gapY) && Valid()
    {
      player.x := StartX;
      player.y := StartY as real;
      frameTime := 0.0;
      mode := Playing;
      obstacle := NewObstacle(ScreenWidth, 0, gapY);
      score := 0;
    }

    method MainMenu(key: Option<Key>, gapY: int) returns (quitting: bool)
      requires GapLow <= gapY < GapHigh
      modifies this, player
      ensures quitting <==> key == Some(Q)
      ensures Snapshot() == OnMenuKey(old(Snapshot()), key, gapY)
    {
      quitting := false;
      match key {
        case Some(P) => Restart(gapY);
        case Some(Q) => quitting := true;
        case _ =>
      }
    }

    method Dead(key: Option<Key>, gapY: int) returns (quitting: bool)
      requires GapLow <= gapY < GapHigh
      modifies this, player
      ensures quitting <==> key == Some(Q)
      ensures Snapshot() == OnMenuKey(old(Snapshot()), key, gapY)
    {
      quitting := false;
      match key {
        case Some(P) => Restart(gapY);
        case Some(Q) => quitting := true;
        case _ =>
      }
    }

    method Play(elapsedMs: real, key: Option<Key>, gapY: int)
      requires GapLow <= gapY < GapHigh
      modifies this, player
      ensures Snapshot() == Rules.Play(old(Snapshot()), elapsedMs, key, gapY)
    {
      frameTime := frameTime + elapsedMs;
      if frameTime > FrameDuration {
        frameTime := 0.0;
        player.GravityAndMove();
      }
      if key == Some(Space) {
        player.Flap();
      }
      if player.x > obstacle.x {
        score := score + 1;
        obstacle := NewObstacle(player.x + ScreenWidth, score, gapY);
      }
      if TruncToInt(player.y) > ScreenHeight || HitObstacle(obstacle, player.x, TruncToInt(player.y)) {
        mode := End;
      }
    }

    method Tick(elapsedMs: real, key: Option<Key>, gapY: int) returns (quitting: bool)
      requires GapLow <= gapY < GapHigh
      modifies this, player
      ensures quitting == Quits(old(Snapshot()), key)
      ensures Snapshot() == Rules.Tick(old(Snapshot()), elapsedMs, key, gapY)
      ensures old(Valid()) ==> Valid()
    {
      quitting := false;
      match mode {
        case Menu => quitting := MainMenu(key, gapY);
        case End => quitting := Dead(key, gapY);
        case Playing => Play(elapsedMs, key, gapY);
      }
    }
  }
}
