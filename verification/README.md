# Polygon background: the shape lifecycle

A model of the animated background in `polygon-background.js`: a pool of
softly glowing quadrilaterals that are created at random, morph with an
ease-in-out curve from their current polygon toward a target polygon, fade in
when born, fade out after a lifetime of 15 to 25 seconds and are then replaced
in their pool slot, drift slowly, and get a recovery target queued when they
wander off the canvas.

- `geometry.dfy` (module `Geometry`): points, unit directions, the easing
  curve and the eased point blend (`interpolatePoint`).
- `factory.dfy` (module `Factory`): the configuration, the quadrilateral
  record, `generateQuadrilateralPoints` and `createQuadrilateral`.
- `engine.dfy` (module `Engine`): the per-shape body of
  `updateQuadrilaterals`, one function per phase (fade-in, expiry, fade-out,
  commit or advance of the morph, drift, boundary re-target), their
  composition `Tick`, and `TickQuad`, the statement-by-statement procedure with
  its two four-vertex loops, proved equal to `Tick`.
- `pool.dfy` (module `Pool`): class `QuadPool`, holding the configuration,
  the canvas size and the shapes, with the initial population,
  `updateQuadrilaterals`, `addQuadrilateral`, `clear` and `setCount`.
- `wrappers.dfy` (module `Wrappers`): `Option`, used for the queued target.

Every `Math.random()` result except those that set the vertex angles (see
"## Left out") is an explicit real in [0, 1) handed to the operation that
consumes it (records `ShapeDraws` and `TickDraws`). Every
cos/sin pair is an explicit unit direction (`Dir`, with cos² + sin² = 1).
`Date.now()` is the parameter `now`. All quantities are `real`.

The model follows the code in three places a reader might not expect:

- The expiry threshold `15000 + Math.random() * 10000` is drawn afresh on
  every tick, not fixed when the shape is created. `TickDraws.expiry` is that
  per-tick draw.
- Nothing keeps `fadeIn` and `fadeOut` from being true together, and the
  model does not claim they exclude each other.
- The lifetime grows by a fixed 16 per tick, whatever time has really passed.

## Model

| member | source | states |
|---|---|---|
| Geometry.Ease | polygon-background.js:164 | the eased value is 0 at t = 0 and 1 at t = 1; it lies in [0, 1] for t in [0, 1], at most 0.5 below the seam and at least 0.5 from it on |
| Geometry.EaseSeam | polygon-background.js:164 | both branches of the curve give 0.5 at t = 0.5, so the curve is continuous there |
| Geometry.EaseSymmetric | polygon-background.js:164 | ease(1 - t) = 1 - ease(t): the ease-out half mirrors the ease-in half |
| Geometry.EaseMonotone | polygon-background.js:164 | on [0, 1] the curve is non-decreasing |
| Geometry.Interpolate | polygon-background.js:162-169 | the blend returns p1 at t = 0 and p2 at t = 1 |
| Geometry.InterpolateBetween | polygon-background.js:162-169 | for t in [0, 1] each coordinate of the blend lies between those of p1 and p2, and is no farther from p2 than p1 was |
| Factory.DefaultConfig | polygon-background.js:70-93 | the default configuration (15 shapes, sizes 80 to 250, 8 paired colours, 3000 ms morph) satisfies the configuration invariant |
| Factory.Size | polygon-background.js:131 | a drawn size lies in [minSize, maxSize] |
| Factory.ColorIndex | polygon-background.js:132 | floor(r * n) is a valid palette index for every draw r in [0, 1) |
| Factory.Speed | polygon-background.js:133 | a drawn speed is within variation / 2 of the base speed |
| Factory.Radius | polygon-background.js:117 | a vertex radius lies in [0.8 size, 1.2 size] |
| Factory.AlongUnitDirection | polygon-background.js:118-121 | a point placed at radius r along a unit direction (cos, sin) from a centre lies at squared distance exactly r² from it |
| Factory.Vertex | polygon-background.js:116-121 | a vertex placed along a unit direction with a drawn radius lies at a distance in [0.8 size, 1.2 size] from the centre |
| Factory.GeneratePoints | polygon-background.js:110-125 | exactly four points, each at a distance in [0.8 size, 1.2 size] from the centre |
| Factory.Polygon | polygon-background.js:277-278 | a polygon around a centre with a drawn size has four points within [0.8 minSize, 1.2 maxSize] of it |
| Factory.CreateQuadrilateral | polygon-background.js:128-154 | a new shape has alpha 0, fadeIn set, fadeOut clear, progress 1, lifetime 0, nothing queued, transition start now, its centre on the canvas, two four-point polygons around it, and color and glowColor taken from one in-range palette index |
| Engine.CreatedIsValid | polygon-background.js:138-153 | a new shape satisfies the pool invariant (four-point polygons, alpha and progress in [0, 1], paired colours) |
| Engine.FadeIn | polygon-background.js:242-248 | while fading in below 1, alpha rises by the fade-in speed and never exceeds 1; a rise that reaches or passes 1 sets alpha to exactly 1 and clears fadeIn, and fadeIn is cleared in no other case; nothing else changes |
| Engine.FadeInCompletes | polygon-background.js:242-248 | a shape fading in from alpha a in [0, 1) has alpha exactly 1 and fadeIn clear after any n fade-in steps (the fade-in phase alone) with a + n * fadeInSpeed >= 1 |
| Engine.FadeInSettled | polygon-background.js:242 | once fadeIn is clear, further fade-in steps change nothing |
| Engine.Threshold | polygon-background.js:251 | the per-tick expiry threshold lies in [15000, 25000) |
| Engine.Expire | polygon-background.js:251-253 | fadeOut afterwards is set exactly when it was set or the lifetime exceeds the threshold; nothing else changes |
| Engine.ExpiryWindow | polygon-background.js:251-253 | whatever the draw, fadeOut is never cleared, never newly set while lifetime <= 15000, always set once lifetime >= 25000 |
| Engine.FadeOut | polygon-background.js:256-258 | a shape that survives fade-out loses exactly fadeOutSpeed of alpha and keeps alpha above 0; nothing else changes |
| Engine.Aged | polygon-background.js:239-253 | the first three phases of a tick make the shape exactly 16 older, give it the alpha and fadeIn of one fade-in step, never clear fadeOut, never newly set it while the lifetime is at most 15000 and always set it once the lifetime reaches 25000; nothing else changes |
| Engine.Replaced | polygon-background.js:256-260 | a shape is replaced exactly when, after aging, it is fading out and its alpha is above 0 and at most one fade-out step; only a shape that was fading out or has passed 15000 can be replaced |
| Engine.Progress | polygon-background.js:282-285 | the progress is at most 1, at least 0 when now is not before the transition start, exactly 1 once a full duration has elapsed and below 1 before that |
| Engine.EasePoints | polygon-background.js:288-294 | easing keeps the number of points; progress 0 leaves every point where it is and progress 1 puts every point on its same-index target |
| Engine.EasePointsApproach | polygon-background.js:288-294 | each eased point lies between its old position and its same-index target, and equals the target at progress 1 |
| Engine.Commit | polygon-background.js:266-279 | the current polygon becomes the old target, progress is 0 from now, the queue is empty, the new target is the queued one if there was one and otherwise a four-point polygon around the centre with a size in range; nothing else changes |
| Engine.Advance | polygon-background.js:280-295 | progress becomes the capped elapsed fraction, every current point its eased blend toward its target, the target is unchanged and every polygon keeps four points |
| Engine.Transition | polygon-background.js:266-295 | after the transition step progress is at most 1, and at least 0 with the start not after now when the clock has not run backwards; a commit restarts at 0 from now |
| Engine.Drift | polygon-background.js:298-299 | drift changes only the centre |
| Engine.DriftDistance | polygon-background.js:298-299 | the centre moves by exactly the drift amplitude 0.2 on every tick |
| Engine.RecoveryInBounds | polygon-background.js:302-313 | on a canvas at least 2 maxSize wide and high, every vertex of the recovery polygon passes the bounds test of lines 303-306, so the queued target is back inside the canvas widened by maxSize |
| Engine.NearCentreInBounds | polygon-background.js:303-306 | a point within 1.2 maxSize of a centre in the inner 80% of such a canvas passes the bounds test |
| Engine.RecoveryCoordinate | polygon-background.js:310-311 | a recovery coordinate lies in the inner 80% of its axis |
| Engine.Recovery | polygon-background.js:310-313 | the recovery polygon has four points within [0.8 minSize, 1.2 maxSize] of a centre in the inner 80% of the canvas |
| Engine.Boundary | polygon-background.js:302-316 | a shape with a point outside the widened canvas and nothing queued gets the recovery polygon queued; a queued target is never overwritten; a shape with all points in bounds is unchanged; only the queue changes |
| Engine.Tick | polygon-background.js:237-317 | a tick keeps every polygon at four points |
| Engine.TickPreservesValid | polygon-background.js:237-317 | given a valid shape whose transition started no later than now (a clock that has not run backwards), a tick keeps alpha and progress in [0, 1], four-point polygons and paired colours, and leaves no transition starting after now |
| Engine.TickReplacement | polygon-background.js:256-262 | a shape whose fade-out reaches 0 is replaced by exactly a freshly created shape with no later step applied; a surviving shape is exactly 16 older and keeps its colours and speed |
| Engine.TickFadeOutSticky | polygon-background.js:251-262 | only a fading-out shape is replaced; a surviving shape never stops fading out; fade-out starts by lifetime 25000 and never by 15000 |
| Engine.TickConsumesQueue | polygon-background.js:266-279 | at a commit the queued target becomes the target and the queue is emptied, re-filled only with a recovery polygon when the committed polygon is out of bounds |
| Engine.TickRecovers | polygon-background.js:302-316 | a surviving shape with nothing queued that ends the tick out of bounds gets the recovery polygon queued; mid-morph, a queued target survives the tick unchanged |
| Engine.TransitionArrives | polygon-background.js:266-294 | once a full duration has elapsed a tick puts the points exactly on the target with progress 1, and the next tick commits: current polygon = old target, progress 0 |
| Engine.Ticks | polygon-background.js:237-317 | a run of consecutive ticks of one shape keeps every polygon at four points |
| Engine.TickWhileYoung | polygon-background.js:239-262 | a shape that is not fading out and stays at most 15000 old through the tick is not replaced, is not fading out afterwards, is exactly 16 older and has the alpha and fadeIn of one fade-in step |
| Engine.YoungTick | polygon-background.js:237-262 | a run of ticks of such a young shape is its first tick, as TickWhileYoung describes it, followed by the remaining ticks |
| Engine.TicksFadeIn | polygon-background.js:239-253 | over n whole ticks, a shape fading in from alpha a in [0, 1) and not fading out ends with alpha exactly 1, fadeIn clear and fadeOut clear whenever a + n * fadeInSpeed >= 1 and its lifetime plus 16n stays at most 15000 |
| Engine.TicksOpaque | polygon-background.js:239-253 | a fully opaque shape that is neither fading in nor out stays so over n ticks while its lifetime plus 16n stays at most 15000 |
| Engine.EaseEachPoint | polygon-background.js:288-294 | the four-vertex easing loop yields each point's eased blend toward its same-index target |
| Engine.CheckBounds | polygon-background.js:302-316 | the four-vertex bounds loop queues exactly what Boundary describes |
| Engine.TickQuad | polygon-background.js:237-317 | the per-shape update body, step by step, computes exactly Tick |
| Pool.QuadPool.constructor | polygon-background.js:156-159 | the initial pool holds exactly numQuadrilaterals fresh shapes, in draw order, and satisfies the pool invariant |
| Pool.QuadPool.AddQuadrilateral | polygon-background.js:370-372 | one fresh shape is appended, the others unchanged, the length grows by exactly 1 |
| Pool.QuadPool.Clear | polygon-background.js:383-385 | the pool becomes empty |
| Pool.QuadPool.SetCount | polygon-background.js:388-398 | an equal count changes nothing; growing yields exactly count shapes with the old ones as prefix and fresh ones after; shrinking to count >= 0 keeps exactly the first count; a negative count drops that many from the end, as splice does |
| Pool.QuadPool.Update | polygon-background.js:234-318 | every slot holds Tick of its old shape, replacement included, with its own draws only; given a clock that has not run backwards, the pool keeps its size and invariant |

## Left out

- Canvas lookup and creation, style injection, resizing and the automatic
  start on page load (lines 14-67, 402-411): host glue. The canvas size is
  the pair of fields `width` and `height` of `QuadPool`.
- `resetSize` (line 380): canvas resizing; it only changes `width` and `height`.
- The merge of a caller's configuration over the defaults (line 95) and
  `updateConfig` (lines 375-377): untyped merges of arbitrary fields. The
  configuration is a record whose invariant (`Config.Valid`) requires
  0 <= minSize <= maxSize, a positive transition duration, a non-empty
  palette with as many glow colours as colours, and non-negative variation
  and fade speeds. Stroke colour, stroke width and glow radius are not in it:
  only painting reads them. `numQuadrilaterals` is a `nat`, so the model
  cannot express a negative count (the loop at line 157 then creates no
  shape) or a fractional count n (the loop then creates ceil(n) shapes).
- Painting: `drawQuadrilateral`, `drawGridBackground` and the
  `clearRect`/`requestAnimationFrame` loop of `animate` (lines 172-231,
  321-362). They only paint.
- `generateRandomPoint` (lines 102-107): never called.
- GeneratePoints: the angle of each vertex (a random rotation in [0, π), a
  quarter turn per vertex and a jitter of ±0.15 rad) is not modelled; each
  vertex receives cos and sin of its angle as a unit direction, so nothing
  is proved about the angles themselves.
- Drift: the phase `Date.now() * 0.0005 * |speed|` is not computed; its sin
  and cos arrive as a unit direction.
- One clock value `now` serves a whole tick, and likewise the whole initial
  population, one `AddQuadrilateral` and one `SetCount`: the source reads
  `Date.now()` afresh in every `createQuadrilateral` call (line 151) and in
  the drift, and the model takes all those reads to be equal. A new shape
  starts with progress 1, so its first tick commits and overwrites
  `lastTransitionTime` with that tick's `now`; the shared creation time is
  never used for a progress.
- Pool.QuadPool.Update: requires that the clock has not run backwards, i.e.
  every shape's transition started no later than this tick's `now`
  (`StartedBy(now)`); `Engine.TickPreservesValid` requires the same of its
  shape. The source reads the wall clock `Date.now()` (line 235) and never
  checks it: after the clock steps back, line 284 yields a negative
  `transitionProgress`, which the model's invariant (progress in [0, 1])
  excludes. The model says nothing about ticks under such a clock.
- Object identity: shapes are values, so "the slot holds a different object
  after replacement" is stated as "the slot holds exactly a freshly created
  shape". No shape object is shared between slots in the source either.
- IEEE-754 rounding: arithmetic is exact on reals, so for example 50
  additions of 0.02 reach 1 exactly here; the clamp gives the bound either way.
- SetCount: a non-integer count (which the source accepts) is not modelled;
  `count` is an integer.
