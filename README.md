# Flappy Dragon — a verified model of the gameplay core

This project models the gameplay logic of Flappy Dragon, a terminal side-scroller. The dragon falls under gravity. The user flaps to push it upwards and steers it through the gaps of a sequence of walls. The model covers the following parts of `src/main.rs`:

- obstacle construction and collision (`Obstacle::new`, `hit_obstacle`);
- player physics (`Player::new`, `gravity_and_move`, `flap`);
- the game controller `State` (`new`, `restart`, `main_menu`, `dead`, `play`) and the `tick` dispatch on the three modes Menu, Playing and End.

Layout:

- `config.dfy` (module `Config`): the constants, the key type and the `as i32` cast (`TruncToInt`).
- `obstacles.dfy` (module `Obstacles`): `Obstacle` is a value type with pure functions, as in the source.
- `players.dfy` (module `Players`): the pure physics step `Fall` and the flap `Flapped`, both on the value snapshot `Body`. The class `Player` has mutable fields, and its methods are proved to follow those two functions.
- `rules.dfy` (module `Rules`): the controller's behaviour on the value snapshot `World`. It defines `Initial`, `Restart`, `OnMenuKey`, `Play` and `Tick`, and the invariant `Inv` that every reachable state keeps.
- `game.dfy` (module `Game`): the class `State`. Its methods update their fields in the source's order, and each is proved to produce `Rules.X(old(Snapshot()))`.
- `runs.dfy` (module `Runs`): properties over sequences of frames.

Engine inputs become parameters:

- The elapsed milliseconds (`ctx.frame_time_ms`) become `elapsedMs`.
- The key pressed (`ctx.key`) becomes `key: Option<Key>`.
- The random gap centre (`random.range(10, 40)`) becomes `gapY`, with the precondition `10 <= gapY < 40`.
- `ctx.quitting = true` becomes the returned `quitting` flag.

The `f32` fields `y`, `velocity` and `frame_time` are exact `real`s. This is an idealisation: results such as "the velocity reaches exactly 2.0 after 15 steps" hold for exact arithmetic, not for IEEE single precision.

Notes on the code's behaviour:

- `restart` does not reset the player's velocity (src/main.rs:127-134). `Rules.Restart` keeps it.
- `restart` mutates the existing player instead of replacing it. This is why `State.player` is a `const` reference.
- A gap of `size` rows lets through `2 * (size / 2) + 1` rows, because both boundary rows are passable. For an even size that is one row more than `size` (`Obstacles.PassableRowCount`).

## Model

| member | source | states |
|---|---|---|
| `Config.TruncToInt` | src/main.rs:55-56 | the `as i32` cast truncates toward zero; for a non-negative row it equals the floor |
| `Obstacles.GapSize` | src/main.rs:31 | the gap size is `max(2, 20 - score)`: at least 2, at least `20 - score`, and equal to one of them |
| `Obstacles.GapSizeNonIncreasing` | src/main.rs:31 | a higher score never gives a larger gap |
| `Obstacles.NewObstacle` | src/main.rs:26-32 | the new obstacle sits at the given column; its gap centre is the draw from [10, 40); its size is `20 - score` up to score 18 and 2 from then on |
| `Obstacles.HitObstacle` | src/main.rs:52-60 | no hit on any other column; on the obstacle's column, a hit exactly when the row is outside the closed gap `[gapY - size/2, gapY + size/2]` |
| `Obstacles.GapBoundaries` | src/main.rs:52-60 | the centre and both boundary rows are passable; the rows just beyond either boundary collide |
| `Obstacles.PassableRows` | src/main.rs:53-56 | the set of rows at which a player on the obstacle's column survives |
| `Obstacles.PassableRowCount` | src/main.rs:53-56 | exactly `2 * (size / 2) + 1` rows are passable |
| `Players.Fall` | src/main.rs:85-99 | one physics step: column +1; velocity +GRAVITY exactly when it was below TERMINAL_VELOCITY, otherwise unchanged; row = max(0, row + new velocity), so never negative |
| `Players.Flapped` | src/main.rs:101-103 | a flap sets the velocity to -FLAP_STRENGTH whatever it was and moves nothing |
| `Players.FallsBounds` | src/main.rs:85-99 | over n steps the column advances by exactly n, the row stays non-negative, and the velocity never decreases; the velocity never exceeds TERMINAL_VELOCITY + GRAVITY when it starts at or below that |
| `Players.VelocityAfterFlap` | src/main.rs:85-103 | after a flap the velocity rises by GRAVITY per step and settles at exactly TERMINAL_VELOCITY from the 15th step on |
| `Players.Player.constructor` | src/main.rs:71-77 | a new player stands at the given column and row with zero velocity |
| `Players.Player.GravityAndMove` | src/main.rs:85-99 | the fields after the call are `Fall` of the fields before |
| `Players.Player.Flap` | src/main.rs:101-103 | only the velocity changes, to the `Flapped` value |
| `Rules.Row` | src/main.rs:208 | the row the game tests, `player.y as i32`: the floor of a non-negative `y`, always within one of `y` |
| `Rules.Ending` | src/main.rs:208 | the game ends on a row below 50 or, on the obstacle's column only, a row outside the closed gap |
| `Rules.Quits` | src/main.rs:145-170 | quitting is requested exactly on Q in Menu or End, never while Playing |
| `Rules.Initial` | src/main.rs:117-125 | the game starts in Menu with score 0, an empty accumulator, the player at rest at (5, 25), and a size-20 obstacle at column 80; the invariant holds |
| `Rules.Restart` | src/main.rs:127-134 | the state becomes Playing with score 0, accumulator 0, the player at (5, 25) with its velocity kept, and a size-20 obstacle at column 80; the invariant holds and the game is not ending |
| `Rules.OnMenuKey` | src/main.rs:145-153 | in Menu and End, P restarts the game; every other key or no key leaves the state unchanged |
| `Rules.Play` | src/main.rs:173-212 | the accumulator gains the elapsed time; above 75 ms it resets to 0 and exactly one step runs, otherwise the player does not move; Space flaps; passing the obstacle scores exactly 1 and brings one at `x + 80` sized for the new score; a stepped frame moves the player by exactly one `Fall` (then `Flapped` on Space), and a frame without a step moves nothing; the mode becomes End exactly on a fall below row 50 or a hit and otherwise stays Playing; the invariant is kept |
| `Rules.Tick` | src/main.rs:218-229 | the frame goes to the handler of the current mode only; a quit frame leaves the state unchanged; the invariant is kept |
| `Game.State.constructor` | src/main.rs:117-125 | the new controller is `Rules.Initial` and satisfies the invariant |
| `Game.State.Restart` | src/main.rs:127-134 | the new state is `Rules.Restart` of the old one and satisfies the invariant |
| `Game.State.MainMenu` | src/main.rs:136-154 | the quit flag is raised exactly on Q, and the new state is `Rules.OnMenuKey` of the old one |
| `Game.State.Dead` | src/main.rs:156-171 | the quit flag is raised exactly on Q, and the new state is `Rules.OnMenuKey` of the old one |
| `Game.State.Play` | src/main.rs:173-212 | the new state is `Rules.Play` of the old one |
| `Game.State.Tick` | src/main.rs:218-229 | the new state is `Rules.Tick` of the old one; the quit flag is raised exactly on Q outside Playing; the invariant is preserved |
| `Runs.RunKeepsInv` | src/main.rs:127-212 | every state reached by any sequence of frames keeps the invariant: non-negative row, accumulator at most 75, obstacle sized for the score, player never past the obstacle, and a Playing state never in an ending position |
| `Runs.RunFromStart` | src/main.rs:117-125 | from the initial state, every reachable state has a non-negative row and an obstacle of size `GapSize(score)`, which is at least 2 |
| `Runs.NoSkippedObstacle` | src/main.rs:202-205 | an obstacle is passed only from a state where the player stood exactly on its column, so the exact-column collision test cannot be skipped |
| `Runs.ScoreNeverDecreases` | src/main.rs:202-205 | without a P key the score never decreases, and the Menu and End modes stay unchanged |
| `Runs.AccumulateThenStep` | src/main.rs:179-187 | frames whose running total stays at or under 75 ms until the last one exceeds it cause exactly one physics step and leave the accumulator at 0 |

## Left out

- Drawing is not modelled: `Obstacle::render`, `Player::render`, and the `cls`, `cls_bg`, `print` and `print_centered` calls. They only call terminal primitives and do not change the game state.
- `main`, the `BTermBuilder` window setup and `main_loop` are not modelled. They are engine glue around a library that is not part of this model.
- `RandomNumberGenerator` is not modelled. Its draw is the parameter `gapY`, constrained to [10, 40).
- `ctx.quitting` is a flag on the engine context, and it stays set once raised. The model returns only the quit flag of the current frame.
- IEEE `f32` rounding of `y`, `velocity` and `frame_time` is not modelled; these are exact reals.
- Rust's saturation of the float-to-int cast at the `i32` bounds is not modelled. `TruncToInt` truncates without bounds, and the row is never negative anyway.
- The `i32` overflow of `player.x`, `obstacle.x` and `score` is not modelled: wrap-around in a release build, a panic in a debug build. Integers are unbounded here. The first overflow, of `obstacle.x = player.x + 80`, needs about 2^31 physics steps.
- `Obstacles.HitObstacle`: `size / 2` is Euclidean division here and truncating division in Rust. The two differ only for a negative odd size, and every obstacle the game builds has size at least 2 (`WellFormed`).
