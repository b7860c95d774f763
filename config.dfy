/** The game's compile-time constants and the engine inputs a frame receives. */
module Config {
  /** Width and height of the 80x50 character grid. */
  const ScreenWidth: int := 80
  const ScreenHeight: int := 50

  /** Milliseconds that must accumulate before one physics step runs. */
  const FrameDuration: real := 75.0

  /** Gravity is only added while the velocity is below this value. */
  const TerminalVelocity: real := 2.0
  const Gravity: real := 0.2

  /** A flap sets the velocity to minus this value (upwards). */
  const FlapStrength: real := 1.0

  /** The player starts every game at this world column and screen row. */
  const StartX: int := 5
  const StartY: int := 25

  /** Bounds of the random draw for an obstacle's gap centre: [GapLow, GapHigh). */
  const GapLow: int := 10
  const GapHigh: int := 40

  /** The keys the game reacts to; every other key is `Other`. */
  datatype Key = P | Q | Space | Other

  datatype Option<T> = None | Some(value: T)

  /**
   * Conversion of a float to an integer row as the
   * `as i32` cast does it: truncation toward zero (saturation at the i32
   * bounds is not modelled).
   */
  function TruncToInt(r: real): (n: int)
    ensures r >= 0.0 ==> n == r.Floor
    ensures r < 0.0 ==> (n as real) - 1.0 < r <= (n as real)
    ensures -1.0 < r - (n as real) < 1.0
  {
    if r >= 0.0 then r.Floor else -((-r).Floor)
  }
}
