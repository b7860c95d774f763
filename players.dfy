/** The dragon: world column, screen row and vertical velocity (positive is downwards). */
module Players {
  import opened Config

  /** A value snapshot of the player's three fields. */
  datatype Body = Body(x: int, y: real, velocity: real)

  /**
   * One physics step: gravity is added only while the velocity is below
   * the terminal velocity (the check comes before the add, so the result
   * may exceed it), the row moves by the new velocity and is clamped at
   * the top of the screen, and the column advances by one.
   */
  function Fall(b: Body): (r: Body)
    ensures r.x == b.x + 1
    ensures b.velocity < TerminalVelocity <==> r.velocity == b.velocity + Gravity
    ensures b.velocity >= TerminalVelocity <==> r.velocity == b.velocity
    ensures r.y >= 0.0 && r.y >= b.y + r.velocity
    ensures r.y == b.y + r.velocity || r.y == 0.0
  {
    var velocity := if b.velocity < TerminalVelocity then b.velocity + Gravity else b.velocity;
    var y := b.y + velocity;
    var x := b.x + 1;
    Body(x, if y < 0.0 then 0.0 else y, velocity)
  }

  /** A flap replaces the velocity, whatever it was, and moves nothing. */
  function Flapped(b: Body): (r: Body)
    ensures r.velocity == -FlapStrength
    ensures r.x == b.x && r.y == b.y
  {
    b.(velocity := -FlapStrength)
  }

  /** `n` consecutive physics steps with no flap in between. */
  function Falls(b: Body, n: nat): (r: Body)
  {
    if n == 0 then b else Fall(Falls(b, n - 1))
  }

  /**
   * Over `n` steps the column advances by exactly `n`, the row stays at or
   * below the top of the screen, and the velocity never decreases and never
   * exceeds the larger of its start value and TerminalVelocity + Gravity.
   */
  lemma {:induction false} FallsBounds(b: Body, n: nat)
    ensures Falls(b, n).x == b.x + n
    ensures n > 0 ==> Falls(b, n).y >= 0.0
    ensures Falls(b, n).velocity >= b.velocity
    ensures b.velocity <= TerminalVelocity + Gravity ==> Falls(b, n).velocity <= TerminalVelocity + Gravity
    ensures b.velocity > TerminalVelocity + Gravity ==> Falls(b, n).velocity == b.velocity
  {
    if n > 0 {
      FallsBounds(b, n - 1);
    }
  }

  /**
   * After a flap the velocity climbs by Gravity per step and settles at
   * exactly TerminalVelocity after 15 steps (exact arithmetic).
   */
  lemma {:induction false} VelocityAfterFlap(b: Body, n: nat)
    ensures n <= 15 ==> Falls(Flapped(b), n).velocity == -FlapStrength + Gravity * (n as real)
    ensures n >= 15 ==> Falls(Flapped(b), n).velocity == TerminalVelocity
  {
    if n > 0 {
      VelocityAfterFlap(b, n - 1);
    }
  }

  /** The mutable player of the game. */
  class Player {
    var x: int
    var y: real
    var velocity: real

    function Snapshot(): (b: Body)
      reads this
      ensures b.x == x && b.y == y && b.velocity == velocity
    {
      Body(x, y, velocity)
    }

    /** A player at (x, y) at rest. */
    constructor (x: int, y: int)
      ensures Snapshot() == Body(x, y as real, 0.0)
    {
      this.x := x;
      this.y := y as real;
      this.velocity := 0.0;
    }

    method GravityAndMove()
      modifies this
      ensures Snapshot() == Fall(old(Snapshot()))
    {
      if velocity < TerminalVelocity {
        velocity := velocity + Gravity;
      }
      y := y + velocity;
      x := x + 1;
      if y < 0.0 {
        y := 0.0;
      }
    }

    method Flap()
      modifies this`velocity
      ensures Snapshot() == Flapped(old(Snapshot()))
    {
      velocity := -FlapStrength;
    }
  }
}
