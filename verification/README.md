# wasm-particles: a verified model of the constellation frame loop

wasm-particles is a canvas animation compiled to WebAssembly. At start-up it
spawns 190 small particles at random positions, with random velocities and
random line colours, on a 1000 by 500 canvas. Then it runs a frame loop.
On every frame, for each particle `i` in turn:

1. It compares `i` with every other particle `j`. When the two centres are
   at most 180 apart, it strokes a line from `i` to `j`. The line has `i`'s
   line colour and opacity `|(180 - d) / 180|`, where `d` is the distance.
2. It draws `i`, then updates it. The update reverses each velocity
   component whose axis overlaps or touches a wall, using the position
   before the move. Then it moves the particle by the new velocity.

Particles are updated in place during the pass. So when particle `i` looks
at its partners, those before it (`j < i`) have already moved this frame and
those after it (`j > i`) have not.

The model has three modules:

- `Particles` (`particles.dfy`) holds the particle.
  - `Body` is a value snapshot of every field. `Body.Step` is the motion rule.
  - `Particle` is a class whose `Update` changes `x`, `y`, `vx` and `vy` in
    place.
  - `States` reads the whole field of particles as a sequence of snapshots.
- `Sampling` (`sampling.dfy`) holds start-up.
  - `Random2` is the floor-of-scaled-draw sampler.
  - `Spawn` builds one particle from its seven draws.
  - `Populate` builds the field of 190 particles.
- `FrameLoop` (`frame_loop.dfy`) holds the frame pass.
  - The methods `ScanRow`, `Pass` and `Tick` follow the nested loop
    statement by statement. That includes the `i == j` skip, the |dx|
    prefilter (whose second test repeats the first), the square root test
    and the per-particle update after each inner loop.
  - They are proved equal to two reference functions: `Row` (one particle's
    lines) and `Frame` (a whole frame's lines and the field after it).
    Both are written with squared distances and no prefilter.
  - The lemmas state what those functions mean:
    - which lines exist, and in what order;
    - where each line's endpoints come from;
    - that opacity lies in [0, 1];
    - that every particle is advanced exactly once;
    - that every particle stays within its radius of the canvas;
    - the two-particle scenario.

Numbers are exact reals. The square root is a parameter that must be the
true non-negative square root (`IsSqrt`). The host's uniform random draws
are parameters in [0, 1).

## Model

| member | source | states |
|---|---|---|
| Particles.Particle.constructor | src/lib.rs:27-37 | the new particle holds exactly the given position, velocity, radius, fill colour and line colour |
| Particles.Particle.Update | src/lib.rs:46-55 | `vx` is negated iff `x + size >= width` or `x - size <= 0`, tested on the position before the move (the same for `vy` against the height); then `x` and `y` advance by the new velocity; radius and colours are untouched; the new state is `Body.Step` of the old |
| Particles.Body.Step | src/lib.rs:46-55 | an update keeps radius and colours, moves each coordinate by its new velocity component, and preserves the magnitude of each component |
| Particles.Reflect | src/lib.rs:47-52 | one wall test keeps the speed on its axis; the component changes iff the particle touches a wall on that axis and the component is non-zero |
| Particles.StepInterior | src/lib.rs:46-55 | a particle clear of all four walls keeps its velocity and is translated by it |
| Particles.StepPastLeftWall | src/lib.rs:47-54 | a radius-3 particle at `x = 0` has `vx` flipped before it moves, so it ends at `x = -vx` |
| Particles.AxisStaysInBand | src/lib.rs:47-54 | for any floor at or below `size` and ceiling at or above `limit - size`, a position within one step of the band (two when heading away from it) remains so after one axis update |
| Particles.StepStaysInBand | src/lib.rs:46-55 | for any speed, the band is kept on both axes by a full update: a particle never strays more than twice its speed below `min(start, size)` or above `max(start, limit - size)`, the wall-contact points |
| Particles.AxisInBand | src/lib.rs:47-54 | for a particle no faster than its radius on a canvas wider than it, one axis update keeps it at most one velocity step outside the canvas, and outside only while still heading outwards |
| Particles.StepContained | src/lib.rs:46-55 | a particle that is no faster than its radius and within that band on both axes remains so after an update |
| Particles.ContainedWithinCanvas | src/lib.rs:46-55 | such a particle's centre is never more than its radius outside the canvas, on either axis |
| Particles.StuckAtLeftWall | src/lib.rs:47-54 | a radius-3 particle at `x = 3` moving right at speed 2 is sent to `x = 1` and back, forever: two updates return it to its starting state |
| Sampling.Random2 | src/lib.rs:58-61 | the sample is an integer `r` with `r <= u*(hi-lo)+lo < r+1`; when `lo < hi` it lies in `(lo-1, hi)` |
| Sampling.Random2IntegerRange | src/lib.rs:58-61 | with integer bounds `lo < hi` the sample is one of `lo .. hi-1` |
| Sampling.Channel | src/lib.rs:85 | a colour channel sampled in [0, 255) and cast to an integer lies in 0..254 and equals the sample exactly |
| Sampling.Spawn | src/lib.rs:77-86 | a spawned particle has integer coordinates in [0, 999] x [0, 499], each velocity component in [-2, 5/3] and a third of an integer, radius 3, white fill, and line-colour channels in 0..254 |
| Sampling.SpawnContained | src/lib.rs:76-86 | every spawned particle is slower than its radius and on the canvas, so it starts inside the band that `StepContained` keeps |
| Sampling.Populate | src/lib.rs:75-88 | start-up builds a field of 190 fresh, distinct particles, the `k`th spawned from the `k`th set of draws |
| FrameLoop.Alpha | src/lib.rs:119-121 | for a drawn line (`0 <= LL <= 180`) the opacity is `(180 - LL)/180`; it lies in [0, 1] and is 1 exactly when `LL = 0` |
| FrameLoop.NearIffWithinReach | src/lib.rs:114-119 | `sqrt(lx^2 + ly^2) <= 180` iff the squared distance is at most 180^2 |
| FrameLoop.PairDistance | src/lib.rs:114-116 | (helper) `lx^2 + ly^2` with `lx = xj - xi`, `ly = yj - yi` is the squared distance between the centres |
| FrameLoop.Dist2Symmetric | src/lib.rs:114-116 | the squared distance does not depend on which particle is the start |
| FrameLoop.PrefilterRedundant | src/lib.rs:110-112 | a pair the prefilter skips (an offset on either axis above 180) could not have passed the distance test |
| FrameLoop.ConcatMember | src/lib.rs:104-131 | (helper, generic over the parts that make up `Row` and `Frame`) a line is in the concatenation of keyed parts iff its key is below the count and it is in the part for its key |
| FrameLoop.ConcatSorted | src/lib.rs:104-131 | (helper, generic) concatenating keyed parts, each sorted by an inner key, lists lines in strictly increasing (key, inner key) order |
| FrameLoop.AdvancedAt | src/lib.rs:104-130 | after the first `m` particles have been updated, slot `k` holds the stepped particle if `k < m` and the original otherwise |
| FrameLoop.RowExactly | src/lib.rs:105-128 | the lines particle `i` draws against the first `m` slots are exactly those to partners `j < m`, `j != i`, within 180, each from `i`'s centre to `j`'s with `i`'s line colour and the computed opacity |
| FrameLoop.RowOrdered | src/lib.rs:105-128 | a particle's lines appear in strictly increasing partner order, so no partner is joined twice in one pass |
| FrameLoop.FrameExactly | src/lib.rs:104-131 | the lines of a frame are exactly the lines each particle `i` draws against the field as it stands when `i`'s turn comes (particles before `i` already updated) |
| FrameLoop.FrameOrdered | src/lib.rs:104-131 | a frame's lines appear in strictly increasing (start, partner) order: grouped by start particle in field order, and each ordered pair is drawn at most once per frame |
| FrameLoop.AlphaOfNearPair | src/lib.rs:114-121 | the opacity of a line between two particles within 180 is in [0, 1] and is 1 iff their centres coincide |
| FrameLoop.TickLineEnds | src/lib.rs:104-131 | every line of a frame joins two distinct slots; its start and colour are the start particle's values before its own update; its end is the partner after update if `j < i` and before update if `j > i`; its squared length is at most 180^2; its opacity is `Alpha` of its length |
| FrameLoop.TickLineAlpha | src/lib.rs:116-121 | every line of a frame has opacity in [0, 1], equal to 1 iff its two ends coincide |
| FrameLoop.AfterTick | src/lib.rs:129-130 | after a frame the field has the same size, each particle has been stepped exactly once, and radius, colours and speed per axis are unchanged |
| FrameLoop.SquareInjective | src/lib.rs:116 | (helper) two non-negative reals with equal squares are equal, so the distance is determined by its square |
| FrameLoop.TickContained | src/lib.rs:104-131 | if every particle of the field starts inside the band, every particle stays inside it at every point of the frame, so every line end is within a radius of the canvas |
| FrameLoop.TwoParticleTick | src/lib.rs:104-131 | two resting radius-3 particles at (0, 250) and (100, 250) produce two lines in one frame, 0 to 1 then 1 to 0, each with opacity 4/9, and stay where they are |
| FrameLoop.RowNext | src/lib.rs:114-127 | (helper for `ScanRow`'s loop invariant) one inner-loop step on a partner `j != i` appends a line exactly when `sqrt(lx^2 + ly^2) <= 180`, with opacity `Alpha` of that value |
| FrameLoop.ScanRow | src/lib.rs:105-128 | the inner loop, including the `i == j` skip and the absolute-dx prefilter, draws exactly `Row` of the current field: the prefilter changes nothing |
| FrameLoop.Pass | src/lib.rs:105-130 | one outer iteration draws `Row` of the field before it, then replaces particle `i` by its step and leaves every other particle unchanged |
| FrameLoop.Tick | src/lib.rs:104-131 | a whole frame draws exactly `Frame` of the initial field and leaves the field equal to every particle stepped once, in order |

## Left out

- Drawing is not modelled: the particle's `draw` (src/lib.rs:39-44), the background fill (101-102) and the stroke calls (120-126). The model returns each line as a `Segment` value instead: its endpoints, colour and opacity.
- The DOM plumbing of `start` is not modelled: the window, document, canvas and context lookups (src/lib.rs:63-73, 90-92). Its 190-particle loop is `Populate`.
- The host's `Math.random` and `console.log` imports (src/lib.rs:16-24) are not modelled. Each random draw is a parameter in [0, 1). The logging call is commented out in the source.
- The closure and `requestAnimationFrame` scheduling (src/lib.rs:96-99, 133-143) are not modelled. `Tick` is one frame; repeated frames are repeated calls.
- The colour strings are not built. A line colour is kept as its three channels (`Rgb`), and a line's opacity as a number; the `format!` text of src/lib.rs:85 and 121 is not produced. The fill colour is kept as its literal string.
- IEEE double arithmetic is replaced by exact real arithmetic. This covers rounding, `powf(2.0)` (modelled as a product), `1f64 / 3.0` (an exact third) and `sqrt`, which is a parameter required to be the exact non-negative square root.
- The `as i64` casts of the colour samples are modelled as exact integer conversions. This holds because every sample is a non-negative integer below 255.
- The duplicated prefilter test `(x_i - x_j).abs() > 180 || (x_i - x_j).abs() > 180` (src/lib.rs:110) looks like it was meant to test `y` in its second half. Either version only skips pairs farther than 180 apart on one axis, which fail the distance test anyway (`PrefilterRedundant`). The frame is therefore the same, and the model keeps the code as written.
- Two particles within 180 of each other are joined by two lines per frame, one drawn from each end, because the inner loop visits every ordered pair (src/lib.rs:104-105). For example, two resting particles at (0, 250) and (100, 250) draw two lines per frame (`TwoParticleTick`).
- Nothing in the update bounds a particle faster than its radius; `StepStaysInBand` covers any speed with a looser band. Every particle the program spawns is slower than its radius (`SpawnContained`). So every particle stays within its radius of the canvas after every update (`StepContained`, `ContainedWithinCanvas`, `TickContained`).
- Tick: its ensures gives the new field as `Advanced` of the old. The per-particle facts (same count, each stepped once, radius and colours unchanged, band kept) are stated by `AfterTick` and `TickContained` about that function.
