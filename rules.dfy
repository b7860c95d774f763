/**
 * The game's rules on values: mode state machine, frame-time accumulator,
 * score and obstacle replacement. The controller class in module Game is
 * proved to follow them.
 */
module Rules {
  import opened Config
  import opened Obstacles
  import opened Players

  datatype Mode = Menu | Playing | End

  /** A value snapshot of the controller's fields. */
  datatype World = World(mode: Mode, player: Body, frameTime: real, score: int, obstacle: Obstacle)

  /** The screen row the player is drawn on and tested at: `y as i32`. */
  function Row(p: Body): (n: int)
    ensures p.y >= 0.0 ==> n == p.y.Floor
    ensures -1.0 < p.y - (n as real) < 1.0
  {
    TruncToInt(p.y)
  }

  /** The condition that ends a game: off the bottom of the screen, or into the wall. */
  predicate Ending(w: World)
    ensures w.player.x != w.obstacle.x ==> (Ending(w) <==> Row(w.player) > ScreenHeight)
    ensures Ending(w) <==>
      Row(w.player) > ScreenHeight || (w.player.x == w.obstacle.x && !InGap(w.obstacle, Row(w.player)))
  {
    Row(w.player) > ScreenHeight || HitObstacle(w.obstacle, w.player.x, Row(w.player))
  }

  /** What holds of every state the game can reach. */
  ghost predicate Inv(w: World)
  {
    && w.player.y >= 0.0
    && w.frameTime <= FrameDuration
    && w.score >= 0
    && WellFormed(w.obstacle, w.score)
    && w.player.x <= w.obstacle.x
    && (w.mode == Playing ==> !Ending(w))
  }

  /** The state the game is created in; `gapY` is the first obstacle's random draw. */
  function Initial(gapY: int): (w: World)
    requires GapLow <= gapY < GapHigh
    ensures w.mode == Menu && w.score == 0 && w.frameTime == 0.0
    ensures w.player == Body(StartX, StartY as real, 0.0)
    ensures w.obstacle == Obstacle(ScreenWidth, gapY, 20)
    ensures Inv(w)
  {
    World(Menu, Body(StartX, StartY as real, 0.0), 0.0, 0, NewObstacle(ScreenWidth, 0, gapY))
  }

  /**
   * Start a new game: the player goes back to the start position, the
   * score and accumulator to zero, and a full-size obstacle is placed one
   * screen ahead. The player's velocity is NOT reset.
   */
  function Restart(w: World, gapY: int): (r: World)
    requires GapLow <= gapY < GapHigh
    ensures r.mode == Playing && r.score == 0 && r.frameTime == 0.0
    ensures r.player.x == StartX && r.player.y == StartY as real
    ensures r.player.velocity == w.player.velocity
    ensures r.obstacle == Obstacle(ScreenWidth, gapY, 20)
    ensures Inv(r) && !Ending(r)
  {
    var player := w.player.(x := StartX, y := StartY as real);
    w.(player := player, frameTime := 0.0, mode := Playing, obstacle := NewObstacle(ScreenWidth, 0, gapY), score := 0)
  }

  /** Key handling of the menu and of the game-over screen (the two are identical). */
  function OnMenuKey(w: World, key: Option<Key>, gapY: int): (r: World)
    requires GapLow <= gapY < GapHigh
    ensures key == Some(P) ==> r == Restart(w, gapY)
    ensures key != Some(P) ==> r == w
    ensures Inv(w) ==> Inv(r)
  {
    match key
    case Some(P) => Restart(w, gapY)
    case _ => w
  }

  /** Whether this frame asks the engine to quit. */
  predicate Quits(w: World, key: Option<Key>)
    ensures Quits(w, key) <==> (w.mode == Menu || w.mode == End) && key == Some(Q)
  {
    w.mode != Playing && key == Some(Q)
  }

  /**
   * One frame of play, `elapsedMs` after the previous one: accumulate the
   * time and run one physics step when it exceeds FrameDuration, flap on
   * Space, score and replace the obstacle once the player is past it, and
   * end the game on a fall or a collision.
   */
  function Play(w: World, elapsedMs: real, key: Option<Key>, gapY: int): (r: World)
    requires GapLow <= gapY < GapHigh
    // the accumulator gates exactly one physics step
    ensures w.frameTime + elapsedMs > FrameDuration ==>
      r.frameTime == 0.0 && r.player.x == w.player.x + 1
    ensures w.frameTime + elapsedMs <= FrameDuration ==>
      r.frameTime == w.frameTime + elapsedMs && r.player.x == w.player.x && r.player.y == w.player.y
    // a flap is applied whatever the accumulator did
    ensures key == Some(Space) ==> r.player.velocity == -FlapStrength
    ensures w.frameTime + elapsedMs > FrameDuration ==>
      r.player == (if key == Some(Space) then Flapped(Fall(w.player)) else Fall(w.player))
    ensures w.frameTime + elapsedMs <= FrameDuration ==>
      r.player == (if key == Some(Space) then Flapped(w.player) else w.player)
    // passing the obstacle scores one point and brings a new one, sized for the new score
    ensures r.score == w.score || r.score == w.score + 1
    ensures r.score == w.score + 1 <==> r.player.x > w.obstacle.x
    ensures r.score == w.score + 1 ==>
      r.obstacle.x == r.player.x + ScreenWidth && r.obstacle.size == GapSize(r.score)
        && GapLow <= r.obstacle.gapY < GapHigh
    ensures r.score == w.score ==> r.obstacle == w.obstacle
    // the game ends exactly on a fall or a collision with the current obstacle
    ensures r.mode == (if Ending(r) then End else w.mode)
    ensures Inv(w) ==> Inv(r)
  {
    var accumulated := w.frameTime + elapsedMs;
    var stepped := accumulated > FrameDuration;
    var frameTime := if stepped then 0.0 else accumulated;
    var moved := if stepped then Fall(w.player) else w.player;
    var player := if key == Some(Space) then Flapped(moved) else moved;
    var passed := player.x > w.obstacle.x;
    var score := if passed then w.score + 1 else w.score;
    var obstacle := if passed then NewObstacle(player.x + ScreenWidth, score, gapY) else w.obstacle;
    var r' := World(w.mode, player, frameTime, score, obstacle);
    if Ending(r') then r'.(mode := End) else r'
  }

  /** The per-frame dispatch on the current mode. */
  function Tick(w: World, elapsedMs: real, key: Option<Key>, gapY: int): (r: World)
    requires GapLow <= gapY < GapHigh
    ensures w.mode != Playing ==> r == OnMenuKey(w, key, gapY)
    ensures w.mode == Playing ==> r == Play(w, elapsedMs, key, gapY)
    ensures Quits(w, key) ==> r == w
    ensures Inv(w) ==> Inv(r)
  {
    match w.mode
    case Menu => OnMenuKey(w, key, gapY)
    case End => OnMenuKey(w, key, gapY)
    case Playing => Play(w, elapsedMs, key, gapY)
  }
}
