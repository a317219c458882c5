/** The range sampler and the construction of the particle field, with the
    host's uniform random draws supplied as parameters. */
module Sampling {
  import opened Particles

  /** Number of particles the field is built with. */
  const ParticleCount: nat := 190

  /** Spawned particles have this radius and this fill colour. */
  const SpawnSize: real := 3.0
  const SpawnColor: string := "rgb(255,255,255)"

  /** `u * (hi - lo) + lo` rounded down, for a draw `u` in [0, 1). */
  function Random2(lo: real, hi: real, u: real): (r: real)
    requires 0.0 <= u < 1.0
    ensures r == r.Floor as real
    ensures r <= u * (hi - lo) + lo < r + 1.0
    ensures lo < hi ==> lo - 1.0 < r < hi
  {
    if lo < hi then
      ScaleBelow(u, hi - lo);
      (Scale(u, hi - lo) + lo).Floor as real
    else
      (Scale(u, hi - lo) + lo).Floor as real
  }

  /** A draw scaled to a span; a function, so that facts about the product
      carry over from a lemma call to the expression at the call site. */
  function Scale(u: real, span: real): real
  {
    u * span
  }

  /** A draw in [0, 1) scaled by a positive span lands in [0, span). */
  lemma ScaleBelow(u: real, span: real)
    requires 0.0 <= u < 1.0 && span > 0.0
    ensures 0.0 <= Scale(u, span) < span
  {
    assert (1.0 - u) * span > 0.0;
  }

  /** With integer bounds `lo < hi` the sample is one of the integers
      lo, ..., hi - 1. */
  lemma Random2IntegerRange(lo: int, hi: int, u: real)
    requires lo < hi && 0.0 <= u < 1.0
    ensures (lo as real) <= Random2(lo as real, hi as real, u) <= (hi - 1) as real
  {
    var r := Random2(lo as real, hi as real, u);
    assert lo - 1 < r.Floor < hi;
  }

  /** The seven uniform draws one particle's construction consumes, in the
      order its arguments are evaluated. */
  datatype Draws = Draws(x: real, y: real, vx: real, vy: real, r: real, g: real, b: real)

  predicate ValidDraws(d: Draws)
  {
    0.0 <= d.x < 1.0 && 0.0 <= d.y < 1.0 && 0.0 <= d.vx < 1.0 && 0.0 <= d.vy < 1.0
    && 0.0 <= d.r < 1.0 && 0.0 <= d.g < 1.0 && 0.0 <= d.b < 1.0
  }

  /** A channel value, sampled in [0, 255) and converted to an integer; the
      sample is already a non-negative integer, so the conversion is exact. */
  function Channel(u: real): (c: int)
    requires 0.0 <= u < 1.0
    ensures 0 <= c <= 254
    ensures c as real == Random2(0.0, 255.0, u)
  {
    Random2IntegerRange(0, 255, u);
    Random2(0.0, 255.0, u).Floor
  }

  /** One particle of the initial field: an integer position on the
      canvas, a velocity a third of an integer in [-6, 6) per axis, radius
      3, white fill and a random line colour. */
  function Spawn(d: Draws): (b: Body)
    requires ValidDraws(d)
    ensures 0.0 <= b.x <= Width - 1.0 && b.x == b.x.Floor as real
    ensures 0.0 <= b.y <= Height - 1.0 && b.y == b.y.Floor as real
    ensures -2.0 <= b.vx <= 5.0 / 3.0 && -2.0 <= b.vy <= 5.0 / 3.0
    ensures 3.0 * b.vx == (3.0 * b.vx).Floor as real && 3.0 * b.vy == (3.0 * b.vy).Floor as real
    ensures b.size == SpawnSize && b.color == SpawnColor
    ensures 0 <= b.lineColor.r <= 254 && 0 <= b.lineColor.g <= 254 && 0 <= b.lineColor.b <= 254
  {
    Random2IntegerRange(0, 1000, d.x);
    Random2IntegerRange(0, 500, d.y);
    Random2IntegerRange(-6, 6, d.vx);
    Random2IntegerRange(-6, 6, d.vy);
    Body(Random2(0.0, Width, d.x), Random2(0.0, Height, d.y),
         Random2(-6.0, 6.0, d.vx) * (1.0 / 3.0), Random2(-6.0, 6.0, d.vy) * (1.0 / 3.0),
         SpawnSize, SpawnColor, Rgb(Channel(d.r), Channel(d.g), Channel(d.b)))
  }

  /** The field built at start-up: one new particle per supplied set of
      draws, each spawned from its own draws, all distinct objects. */
  method Populate(draws: seq<Draws>) returns (a: array<Particle>)
    requires |draws| == ParticleCount
    requires forall k :: 0 <= k < |draws| ==> ValidDraws(draws[k])
    ensures fresh(a) && a.Length == |draws| && Distinct(a)
    ensures forall k :: 0 <= k < a.Length ==> fresh(a[k]) && a[k].State() == Spawn(draws[k])
  {
    var list: seq<Particle> := [];
    for i := 0 to |draws|
      invariant |list| == i
      invariant forall k :: 0 <= k < i ==> fresh(list[k]) && list[k].State() == Spawn(draws[k])
      invariant forall p, q :: 0 <= p < i && 0 <= q < i && p != q ==> list[p] != list[q]
    {
      var d := draws[i];
      var body := Spawn(d);
      var circle := new Particle(body.x, body.y, body.vx, body.vy, SpawnSize, SpawnColor, body.lineColor);
      list := list + [circle];
    }
    a := new Particle[|list|](k requires 0 <= k < |list| => list[k]);
  }

  /** Every spawned particle starts inside the band it then keeps: slower
      than its radius, on the canvas. */
  lemma SpawnContained(d: Draws)
    requires ValidDraws(d)
    ensures Contained(Spawn(d), Width, Height)
  {
  }
}
