/** A particle of the constellation demo and its per-frame motion rule:
    reflect at the canvas walls, then move by the velocity. */
module Particles {

  /** The canvas size that the frame loop passes to every update. */
  const Width: real := 1000.0
  const Height: real := 500.0

  /** A line-colour prefix `rgba(r,g,b`, kept as its three channels; the
      alpha that completes it is computed per line by the frame loop. */
  datatype Rgb = Rgb(r: int, g: int, b: int)

  /** The value of every field of a particle at one instant. */
  datatype Body = Body(x: real, y: real, vx: real, vy: real, size: real, color: string, lineColor: Rgb)
  {
    /** The particle after one update on a `w` by `h` canvas: each velocity
        component is reflected by the wall test on the position before the
        move, then the position advances by the new velocity. */
    function Step(w: real, h: real): (b: Body)
      ensures b.size == size && b.color == color && b.lineColor == lineColor
      ensures b.x == x + b.vx && b.y == y + b.vy
      ensures Abs(b.vx) == Abs(vx) && Abs(b.vy) == Abs(vy)
    {
      var vx' := Reflect(x, vx, size, w);
      var vy' := Reflect(y, vy, size, h);
      Body(x + vx', y + vy', vx', vy', size, color, lineColor)
    }
  }

  function Abs(v: real): real
  {
    if v < 0.0 then -v else v
  }

  /** A particle of radius `size` centred at `pos` overlaps or touches the
      wall at 0 or the wall at `limit` on one axis. */
  predicate Touches(pos: real, size: real, limit: real)
  {
    pos + size >= limit || pos - size <= 0.0
  }

  /** One velocity component after the wall test of its axis. */
  function Reflect(pos: real, v: real, size: real, limit: real): (r: real)
    ensures Abs(r) == Abs(v)
    ensures r == v <==> !Touches(pos, size, limit) || v == 0.0
  {
    if Touches(pos, size, limit) then -v else v
  }

  /** A particle strictly inside the canvas on both axes keeps its velocity
      and is translated by it exactly. */
  lemma StepInterior(b: Body, w: real, h: real)
    requires 0.0 < b.x - b.size && b.x + b.size < w
    requires 0.0 < b.y - b.size && b.y + b.size < h
    ensures b.Step(w, h) == b.(x := b.x + b.vx, y := b.y + b.vy)
  {
  }

  /** A particle already past the left wall has its horizontal velocity
      flipped before it moves, so it moves by the negated velocity. */
  lemma StepPastLeftWall(b: Body, w: real, h: real)
    requires b.x == 0.0 && b.size == 3.0
    ensures b.Step(w, h).vx == -b.vx && b.Step(w, h).x == -b.vx
  {
  }

  /** Lower edge of the band a particle keeps to on one axis, for a floor
      at or below the wall contact point `size`: it is never more than
      one velocity step below the floor, or two when it is moving down. */
  predicate AboveFloor(pos: real, v: real, floor: real)
  {
    pos >= floor - Abs(v) || (pos >= floor - 2.0 * Abs(v) && v < 0.0)
  }

  /** Upper edge of the same band, for a ceiling at or above the wall
      contact point `limit - size`. */
  predicate BelowCeiling(pos: real, v: real, ceiling: real)
  {
    pos <= ceiling + Abs(v) || (pos <= ceiling + 2.0 * Abs(v) && v > 0.0)
  }

  /** The band is kept by one axis step. It holds initially with floor and
      ceiling at the starting position, so a particle never wanders more
      than twice its speed beyond the nearer of its start and the wall. */
  lemma {:induction false} AxisStaysInBand(pos: real, v: real, size: real, limit: real, floor: real, ceiling: real)
    requires floor <= size && limit - size <= ceiling
    requires AboveFloor(pos, v, floor) && BelowCeiling(pos, v, ceiling)
    ensures AboveFloor(pos + Reflect(pos, v, size, limit), Reflect(pos, v, size, limit), floor)
    ensures BelowCeiling(pos + Reflect(pos, v, size, limit), Reflect(pos, v, size, limit), ceiling)
  {
  }

  /** The band on both axes is kept by a whole update. */
  lemma StepStaysInBand(b: Body, w: real, h: real, floorX: real, ceilX: real, floorY: real, ceilY: real)
    requires floorX <= b.size && w - b.size <= ceilX && floorY <= b.size && h - b.size <= ceilY
    requires AboveFloor(b.x, b.vx, floorX) && BelowCeiling(b.x, b.vx, ceilX)
    requires AboveFloor(b.y, b.vy, floorY) && BelowCeiling(b.y, b.vy, ceilY)
    ensures AboveFloor(b.Step(w, h).x, b.Step(w, h).vx, floorX) && BelowCeiling(b.Step(w, h).x, b.Step(w, h).vx, ceilX)
    ensures AboveFloor(b.Step(w, h).y, b.Step(w, h).vy, floorY) && BelowCeiling(b.Step(w, h).y, b.Step(w, h).vy, ceilY)
  {
    AxisStaysInBand(b.x, b.vx, b.size, w, floorX, ceilX);
    AxisStaysInBand(b.y, b.vy, b.size, h, floorY, ceilY);
  }

  /** The band kept on one axis by a particle no faster than its radius:
      at most one velocity step outside the canvas, and outside it only
      while still heading outwards, so the next wall test turns it back. */
  predicate InBand(pos: real, v: real, limit: real)
  {
    -Abs(v) <= pos <= limit + Abs(v) && (pos < 0.0 ==> v < 0.0) && (pos > limit ==> v > 0.0)
  }

  /** One axis update keeps the band when the speed is at most the radius
      and the canvas is wider than the particle. */
  lemma AxisInBand(pos: real, v: real, size: real, limit: real)
    requires Abs(v) <= size && 2.0 * size < limit
    requires InBand(pos, v, limit)
    ensures InBand(pos + Reflect(pos, v, size, limit), Reflect(pos, v, size, limit), limit)
  {
  }

  /** A particle no faster than its radius on either axis, on a canvas
      wider and taller than it, inside the band on both axes. */
  predicate Contained(b: Body, w: real, h: real)
  {
    Abs(b.vx) <= b.size && Abs(b.vy) <= b.size && 2.0 * b.size < w && 2.0 * b.size < h
    && InBand(b.x, b.vx, w) && InBand(b.y, b.vy, h)
  }

  /** A contained particle stays contained after an update. */
  lemma StepContained(b: Body, w: real, h: real)
    requires Contained(b, w, h)
    ensures Contained(b.Step(w, h), w, h)
  {
    AxisInBand(b.x, b.vx, b.size, w);
    AxisInBand(b.y, b.vy, b.size, h);
  }

  /** A contained particle's centre is never more than its radius outside
      the canvas. */
  lemma ContainedWithinCanvas(b: Body, w: real, h: real)
    requires Contained(b, w, h)
    ensures -b.size <= b.x <= w + b.size && -b.size <= b.y <= h + b.size
  {
  }

  /** A radius-3 particle at `x = 3` moving right at speed 2, with no
      vertical motion, is trapped at the left wall: it touches the wall, is
      sent to `x = 1`, touches again and comes back, every two updates. */
  lemma StuckAtLeftWall(b: Body, w: real, h: real)
    requires b.x == 3.0 && b.vx == 2.0 && b.vy == 0.0 && b.size == 3.0 && w > 6.0
    ensures b.Step(w, h).x == 1.0 && b.Step(w, h).vx == -2.0
    ensures b.Step(w, h).Step(w, h) == b
  {
  }

  /** A particle as the frame loop holds it; `update` changes its position
      and velocity in place. */
  class Particle {
    var x: real
    var y: real
    var vx: real
    var vy: real
    var size: real
    var color: string
    var lineColor: Rgb

    /** The current value of all fields. */
    function State(): Body
      reads this
    {
      Body(x, y, vx, vy, size, color, lineColor)
    }

    constructor (x: real, y: real, vx: real, vy: real, size: real, color: string, lineColor: Rgb)
      ensures State() == Body(x, y, vx, vy, size, color, lineColor)
    {
      this.x, this.y, this.vx, this.vy := x, y, vx, vy;
      this.size, this.color, this.lineColor := size, color, lineColor;
    }

    /** Reflect each velocity component whose axis test (on the position
        before moving) finds a wall overlap or contact, then move. */
    method Update(w: real, h: real)
      modifies this`x, this`y, this`vx, this`vy
      ensures vx == if Touches(old(x), size, w) then -old(vx) else old(vx)
      ensures vy == if Touches(old(y), size, h) then -old(vy) else old(vy)
      ensures x == old(x) + vx && y == old(y) + vy
      ensures State() == old(State()).Step(w, h)
    {
      if x + size >= w || x - size <= 0.0 {
        vx := -vx;
      }
      if y + size >= h || y - size <= 0.0 {
        vy := -vy;
      }
      x := x + vx;
      y := y + vy;
    }
  }

  /** No two slots of the field hold the same particle: the field owns
      each of its particles, as a vector owns its elements. */
  predicate Distinct(a: array<Particle>)
    reads a
  {
    forall p, q :: 0 <= p < a.Length && 0 <= q < a.Length && p != q ==> a[p] != a[q]
  }

  /** The values of all particles of the field, in field order. */
  ghost function States(a: array<Particle>): (s: seq<Body>)
    reads a, set k | 0 <= k < a.Length :: a[k]
    ensures |s| == a.Length
    ensures forall k :: 0 <= k < a.Length ==> s[k] == a[k].State()
  {
    seq(a.Length, k requires 0 <= k < a.Length reads a, set m | 0 <= m < a.Length :: a[m] => a[k].State())
  }
}
