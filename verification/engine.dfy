/**
 One tick of one quadrilateral: ageing, fade-in, expiry, fade-out and
 replacement, the morph toward the target polygon, the drift of the centre,
 and the boundary re-target.

 Each phase is a function on the Quad record with its own contract; Tick
 composes them in the order the animation runs them, and TickQuad is the
 step-by-step procedure (with its two four-vertex loops) proved equal to Tick.
 */
module Engine {
  import opened Geometry
  import opened Wrappers
  import opened Factory

  /** Milliseconds added to a shape's lifetime on every tick, whatever the real frame time. */
  const FrameMillis: real := 16.0
  /** The expiry threshold is drawn on every tick from [MinLifetime, MinLifetime + LifetimeSpread). */
  const MinLifetime: real := 15000.0
  const LifetimeSpread: real := 10000.0
  /** How far the centre moves per tick. */
  const DriftAmplitude: real := 0.2

  /**
   Everything one tick of one shape draws at random or reads from
   trigonometry. `drift` is (cos, sin) of the drift phase; `replacement` is
   used only if the shape is replaced; `retarget*` only if a fresh target is
   generated; `recover*` only if a recovery target is queued.
   */
  datatype TickDraws = TickDraws(
    expiry: real,
    replacement: ShapeDraws,
    retargetSize: real,
    retarget: seq<VertexDraw>,
    drift: Dir,
    recoverX: real,
    recoverY: real,
    recoverSize: real,
    recover: seq<VertexDraw>)

  predicate ValidTickDraws(d: TickDraws)
  {
    && IsRandom(d.expiry) && ValidShapeDraws(d.replacement)
    && IsRandom(d.retargetSize) && ValidVertices(d.retarget)
    && IsUnit(d.drift)
    && IsRandom(d.recoverX) && IsRandom(d.recoverY) && IsRandom(d.recoverSize)
    && ValidVertices(d.recover)
  }

  /** Every polygon of the shape has four points. */
  predicate WellFormed(q: Quad)
  {
    && |q.currentPoints| == 4
    && |q.targetPoints| == 4
    && (q.nextTargetPoints.Some? ==> |q.nextTargetPoints.value| == 4)
  }

  /** The invariant every shape in the pool keeps between ticks. */
  predicate QuadValid(q: Quad, cfg: Config)
  {
    && WellFormed(q)
    && 0.0 <= q.alpha <= 1.0
    && 0.0 <= q.transitionProgress <= 1.0
    && q.lifetime >= 0.0
    && PairedColors(q, cfg)
  }

  /** A freshly created shape satisfies the pool invariant. */
  lemma CreatedIsValid(cfg: Config, width: real, height: real, now: real, d: ShapeDraws)
    requires cfg.Valid() && ValidShapeDraws(d) && width >= 0.0 && height >= 0.0
    ensures QuadValid(CreateQuadrilateral(cfg, width, height, now, d), cfg)
  {
  }

  // ---------------------------------------------------------------- fade in

  /**
   Fade-in: while fading in and not yet opaque, alpha rises by the fade-in
   speed; reaching or passing 1 clamps it to exactly 1 and ends the fade-in.
   Nothing but alpha and fadeIn changes.
   */
  function FadeIn(q: Quad, cfg: Config): (r: Quad)
    ensures r == q.(alpha := r.alpha, fadeIn := r.fadeIn)
    ensures !(q.fadeIn && q.alpha < 1.0) ==> r == q
    ensures q.fadeIn && q.alpha < 1.0 ==> r.alpha <= 1.0
    ensures q.fadeIn && q.alpha < 1.0 ==> (r.alpha == 1.0 <==> q.alpha + cfg.fadeInSpeed >= 1.0)
    ensures q.fadeIn && q.alpha < 1.0 && r.alpha < 1.0 ==> r.alpha == q.alpha + cfg.fadeInSpeed
    ensures cfg.fadeInSpeed >= 0.0 ==> q.alpha <= r.alpha
    ensures q.fadeIn && q.alpha < 1.0 ==> (!r.fadeIn <==> q.alpha + cfg.fadeInSpeed >= 1.0)
    ensures r.fadeIn != q.fadeIn ==> r.alpha == 1.0 && !r.fadeIn
  {
    if q.fadeIn && q.alpha < 1.0 then
      var raised := q.alpha + cfg.fadeInSpeed;
      if raised >= 1.0 then q.(alpha := 1.0, fadeIn := false) else q.(alpha := raised)
    else
      q
  }

  /** The fade-in step alone, applied n times in a row. */
  function FadeInTicks(q: Quad, cfg: Config, n: nat): Quad
    decreases n
  {
    if n == 0 then q else FadeInTicks(FadeIn(q, cfg), cfg, n - 1)
  }

  /**
   A shape that is fading in at alpha a in [0, 1) is fully opaque, with its
   fade-in finished, after any n fade-in steps with a + n * fadeInSpeed >= 1
   (so after ceil((1 - a) / fadeInSpeed) steps). TicksFadeIn states the same
   over whole ticks.
   */
  lemma {:induction false} FadeInCompletes(q: Quad, cfg: Config, n: nat)
    requires q.fadeIn && 0.0 <= q.alpha < 1.0 && cfg.fadeInSpeed > 0.0
    requires q.alpha + (n as real) * cfg.fadeInSpeed >= 1.0
    ensures FadeInTicks(q, cfg, n).alpha == 1.0
    ensures !FadeInTicks(q, cfg, n).fadeIn
    decreases n
  {
    var q' := FadeIn(q, cfg);
    assert n >= 1;
    assert FadeInTicks(q, cfg, n) == FadeInTicks(q', cfg, n - 1);
    if q'.fadeIn {
      assert q'.alpha == q.alpha + cfg.fadeInSpeed;
      assert q'.alpha + ((n - 1) as real) * cfg.fadeInSpeed >= 1.0;
      FadeInCompletes(q', cfg, n - 1);
    } else {
      FadeInSettled(q', cfg, n - 1);
    }
  }

  /** Once fade-in has ended, further fade-in steps change nothing. */
  lemma {:induction false} FadeInSettled(q: Quad, cfg: Config, n: nat)
    requires !q.fadeIn
    ensures FadeInTicks(q, cfg, n) == q
    decreases n
  {
    if n > 0 {
      FadeInSettled(FadeIn(q, cfg), cfg, n - 1);
    }
  }

  // ---------------------------------------------------------------- expiry

  /** The expiry threshold of one tick, 15000 + r * 10000 for a fresh draw r. */
  function Threshold(r: real): (t: real)
    requires IsRandom(r)
    ensures MinLifetime <= t < MinLifetime + LifetimeSpread
  {
    MinLifetime + r * LifetimeSpread
  }

  /** Expiry: once the lifetime exceeds this tick's threshold the shape starts fading out. */
  function Expire(q: Quad, threshold: real): (r: Quad)
    ensures r == q.(fadeOut := r.fadeOut)
    ensures r.fadeOut <==> q.fadeOut || q.lifetime > threshold
  {
    if q.lifetime > threshold then q.(fadeOut := true) else q
  }

  /**
   Whatever the tick's draw, expiry never clears fadeOut, never sets it while
   the lifetime is at most 15000, and always sets it once the lifetime is at
   least 25000.
   */
  lemma ExpiryWindow(q: Quad, r: real)
    requires IsRandom(r)
    ensures q.fadeOut ==> Expire(q, Threshold(r)).fadeOut
    ensures q.lifetime <= MinLifetime ==> Expire(q, Threshold(r)).fadeOut == q.fadeOut
    ensures q.lifetime >= MinLifetime + LifetimeSpread ==> Expire(q, Threshold(r)).fadeOut
  {
  }

  // ---------------------------------------------------------------- fade out

  /** The fade-out step of this tick takes alpha from above 0 to 0 or below. */
  predicate FadesAway(q: Quad, cfg: Config)
  {
    q.fadeOut && q.alpha > 0.0 && q.alpha - cfg.fadeOutSpeed <= 0.0
  }

  /**
   Fade-out of a shape that survives it: alpha falls by the fade-out speed
   and stays above 0; nothing else changes.
   */
  function FadeOut(q: Quad, cfg: Config): (r: Quad)
    requires !FadesAway(q, cfg)
    ensures r == q.(alpha := r.alpha)
    ensures q.fadeOut && q.alpha > 0.0 ==> 0.0 < r.alpha == q.alpha - cfg.fadeOutSpeed
    ensures !(q.fadeOut && q.alpha > 0.0) ==> r == q
  {
    if q.fadeOut && q.alpha > 0.0 then q.(alpha := q.alpha - cfg.fadeOutSpeed) else q
  }

  // ---------------------------------------------------------------- transition

  function Min(a: real, b: real): (m: real)
    ensures m <= a && m <= b && (m == a || m == b)
  {
    if a <= b then a else b
  }

  /** The transition progress at time now: elapsed time over duration, capped at 1. */
  function Progress(q: Quad, cfg: Config, now: real): (p: real)
    requires cfg.Valid()
    ensures p <= 1.0
    ensures q.lastTransitionTime <= now ==> 0.0 <= p
    ensures now - q.lastTransitionTime >= cfg.transitionDuration ==> p == 1.0
    ensures now - q.lastTransitionTime < cfg.transitionDuration ==> p < 1.0
  {
    var elapsed := now - q.lastTransitionTime;
    DivBounds(elapsed, cfg.transitionDuration);
    Min(1.0, elapsed / cfg.transitionDuration)
  }

  lemma DivBounds(a: real, d: real)
    requires d > 0.0
    ensures a >= 0.0 ==> a / d >= 0.0
    ensures a >= d ==> a / d >= 1.0
    ensures a < d ==> a / d < 1.0
  {
  }

  /** Every current point blended toward the same-index target point by t. */
  function EasePoints(current: seq<Point>, target: seq<Point>, t: real): (pts: seq<Point>)
    requires |current| == |target|
    ensures |pts| == |current|
    ensures t == 0.0 ==> pts == current
    ensures t == 1.0 ==> pts == target
  {
    seq(|current|, i requires 0 <= i < |current| => Interpolate(current[i], target[i], t))
  }

  /**
   With a progress in [0, 1] every eased point lies, axis by axis, between
   its old position and its target; at progress 1 the points are the target.
   */
  lemma EasePointsApproach(current: seq<Point>, target: seq<Point>, t: real)
    requires |current| == |target| && 0.0 <= t <= 1.0
    ensures forall i :: 0 <= i < |current| ==>
      && Between(EasePoints(current, target, t)[i].x, current[i].x, target[i].x)
      && Between(EasePoints(current, target, t)[i].y, current[i].y, target[i].y)
    ensures t == 1.0 ==> EasePoints(current, target, t) == target
  {
    forall i | 0 <= i < |current|
      ensures Between(EasePoints(current, target, t)[i].x, current[i].x, target[i].x)
      ensures Between(EasePoints(current, target, t)[i].y, current[i].y, target[i].y)
    {
      InterpolateBetween(current[i], target[i], t);
    }
  }

  /**
   Commit: the current polygon becomes a copy of the target, progress restarts
   at 0 from now, and the new target is the queued one (emptying the queue)
   or else a fresh polygon around the centre with a size from the configured
   range. Nothing else changes.
   */
  function Commit(q: Quad, cfg: Config, now: real, sizeDraw: real, vs: seq<VertexDraw>): (r: Quad)
    requires cfg.Valid() && IsRandom(sizeDraw) && ValidVertices(vs)
    ensures r.currentPoints == q.targetPoints
    ensures r.transitionProgress == 0.0 && r.lastTransitionTime == now
    ensures r.nextTargetPoints == None
    ensures q.nextTargetPoints.Some? ==> r.targetPoints == q.nextTargetPoints.value
    ensures q.nextTargetPoints.None? ==> |r.targetPoints| == 4
    ensures q.nextTargetPoints.None? ==>
      WithinReach(r.targetPoints, q.centerX, q.centerY, 0.8 * cfg.minSize, 1.2 * cfg.maxSize)
    ensures r == q.(currentPoints := r.currentPoints, targetPoints := r.targetPoints,
                    nextTargetPoints := r.nextTargetPoints,
                    transitionProgress := r.transitionProgress,
                    lastTransitionTime := r.lastTransitionTime)
  {
    var target :=
      if q.nextTargetPoints.Some? then q.nextTargetPoints.value
      else Polygon(cfg, q.centerX, q.centerY, sizeDraw, vs);
    q.(lastTransitionTime := now, transitionProgress := 0.0, currentPoints := q.targetPoints,
       targetPoints := target, nextTargetPoints := None)
  }

  /**
   Advance: progress becomes the capped elapsed fraction, every current point
   moves to its eased blend toward its target, and the target is untouched.
   */
  function Advance(q: Quad, cfg: Config, now: real): (r: Quad)
    requires cfg.Valid() && WellFormed(q)
    ensures r.transitionProgress == Progress(q, cfg, now)
    ensures r.currentPoints == EasePoints(q.currentPoints, q.targetPoints, r.transitionProgress)
    ensures r == q.(currentPoints := r.currentPoints, transitionProgress := r.transitionProgress)
    ensures WellFormed(r)
  {
    var p := Progress(q, cfg, now);
    q.(transitionProgress := p, currentPoints := EasePoints(q.currentPoints, q.targetPoints, p))
  }

  /** The transition step: commit when the previous morph is complete, otherwise advance it. */
  function Transition(q: Quad, cfg: Config, now: real, d: TickDraws): (r: Quad)
    requires cfg.Valid() && WellFormed(q) && ValidTickDraws(d)
    ensures WellFormed(r)
    ensures q.transitionProgress >= 1.0 ==> r.transitionProgress == 0.0 && r.lastTransitionTime == now
    ensures q.transitionProgress < 1.0 ==> r.lastTransitionTime == q.lastTransitionTime
    ensures r.transitionProgress <= 1.0
    ensures q.lastTransitionTime <= now ==> 0.0 <= r.transitionProgress && r.lastTransitionTime <= now
  {
    if q.transitionProgress >= 1.0 then Commit(q, cfg, now, d.retargetSize, d.retarget)
    else Advance(q, cfg, now)
  }

  // ---------------------------------------------------------------- drift

  /** Drift: the centre moves by (sin, cos) of the drift phase times the amplitude. */
  function Drift(q: Quad, phase: Dir): (r: Quad)
    ensures r == q.(centerX := r.centerX, centerY := r.centerY)
  {
    q.(centerX := q.centerX + phase.sin * DriftAmplitude,
       centerY := q.centerY + phase.cos * DriftAmplitude)
  }

  /** The centre moves by exactly the drift amplitude on every tick. */
  lemma DriftDistance(q: Quad, phase: Dir)
    requires IsUnit(phase)
    ensures SqDist(Point(Drift(q, phase).centerX, Drift(q, phase).centerY), Point(q.centerX, q.centerY))
            == DriftAmplitude * DriftAmplitude
  {
    var c, s := phase.cos, phase.sin;
    calc {
      SqDist(Point(Drift(q, phase).centerX, Drift(q, phase).centerY), Point(q.centerX, q.centerY));
      (s * DriftAmplitude) * (s * DriftAmplitude) + (c * DriftAmplitude) * (c * DriftAmplitude);
      (c * c + s * s) * (DriftAmplitude * DriftAmplitude);
    }
  }

  // ---------------------------------------------------------------- boundary

  /** A point lies outside the canvas widened by maxSize on every side. */
  predicate OutOfBounds(p: Point, cfg: Config, width: real, height: real)
  {
    p.x < -cfg.maxSize || p.x > width + cfg.maxSize || p.y < -cfg.maxSize || p.y > height + cfg.maxSize
  }

  predicate AnyOutOfBounds(pts: seq<Point>, cfg: Config, width: real, height: real)
  {
    exists i :: 0 <= i < |pts| && OutOfBounds(pts[i], cfg, width, height)
  }

  /** A recovery coordinate: uniform in the inner 80% of an axis of the given extent. */
  function RecoveryCoordinate(extent: real, r: real): (c: real)
    requires extent >= 0.0 && IsRandom(r)
    ensures 0.1 * extent <= c <= 0.9 * extent
    ensures extent > 0.0 ==> c < 0.9 * extent
  {
    MulLe(extent, 0.0, r);
    MulLe(extent, r, 1.0);
    assert extent > 0.0 ==> r * extent < extent;
    r * extent * 0.8 + extent * 0.1
  }

  /** The recovery polygon queued for a shape that left the widened canvas. */
  function Recovery(cfg: Config, width: real, height: real, d: TickDraws): (pts: seq<Point>)
    requires cfg.Valid() && width >= 0.0 && height >= 0.0 && ValidTickDraws(d)
    ensures |pts| == 4
    ensures WithinReach(pts, RecoveryCoordinate(width, d.recoverX), RecoveryCoordinate(height, d.recoverY),
                        0.8 * cfg.minSize, 1.2 * cfg.maxSize)
  {
    Polygon(cfg, RecoveryCoordinate(width, d.recoverX), RecoveryCoordinate(height, d.recoverY),
            d.recoverSize, d.recover)
  }

  /**
   The recovery polygon really is back in bounds once the canvas is at least
   2 maxSize wide and high: its centre lies in the inner 80% and each vertex
   within 1.2 maxSize of it. On a narrower canvas a vertex can still fall
   outside the widened canvas (a 375-wide canvas with maxSize 250 lets x
   reach about 37.5 - 300).
   */
  lemma RecoveryInBounds(cfg: Config, width: real, height: real, d: TickDraws)
    requires cfg.Valid() && ValidTickDraws(d)
    requires width >= 2.0 * cfg.maxSize && height >= 2.0 * cfg.maxSize
    ensures !AnyOutOfBounds(Recovery(cfg, width, height, d), cfg, width, height)
  {
    var pts := Recovery(cfg, width, height, d);
    var c := Point(RecoveryCoordinate(width, d.recoverX), RecoveryCoordinate(height, d.recoverY));
    forall i | 0 <= i < |pts|
      ensures !OutOfBounds(pts[i], cfg, width, height)
    {
      NearCentreInBounds(pts[i], c, cfg, width, height);
    }
  }

  /** A point within 1.2 maxSize of a centre in the inner 80% of a canvas at least 2 maxSize on a side is in bounds. */
  lemma NearCentreInBounds(p: Point, c: Point, cfg: Config, width: real, height: real)
    requires cfg.Valid() && width >= 2.0 * cfg.maxSize && height >= 2.0 * cfg.maxSize
    requires 0.1 * width <= c.x <= 0.9 * width && 0.1 * height <= c.y <= 0.9 * height
    requires SqDist(p, c) <= (1.2 * cfg.maxSize) * (1.2 * cfg.maxSize)
    ensures !OutOfBounds(p, cfg, width, height)
  {
    var r := 1.2 * cfg.maxSize;
    SquareNonneg(p.x - c.x);
    SquareNonneg(p.y - c.y);
    SquareBound(p.x - c.x, r);
    SquareBound(p.y - c.y, r);
  }

  /** A square no larger than b * b, for b >= 0, comes from a value in [-b, b]. */
  lemma SquareBound(a: real, b: real)
    requires b >= 0.0 && a * a <= b * b
    ensures -b <= a <= b
  {
    if a > b {
      MulPositive(a - b, a + b);
      assert false;
    } else if a < -b {
      MulPositive(-a - b, b - a);
      assert false;
    }
  }

  lemma SquareNonneg(a: real)
    ensures a * a >= 0.0
  {
    if a < 0.0 {
      MulNonneg(-a, -a);
    } else {
      MulNonneg(a, a);
    }
  }

  lemma MulPositive(a: real, b: real)
    requires a > 0.0 && b > 0.0
    ensures a * b > 0.0
  {
  }

  /**
   Boundary re-target: a shape with a point outside the widened canvas and
   nothing queued gets a recovery polygon queued around a centre in the inner
   80% of the canvas. A queued target is never overwritten, and a shape whose
   points are all in bounds keeps its queue. Nothing else changes.
   */
  function Boundary(q: Quad, cfg: Config, width: real, height: real, d: TickDraws): (r: Quad)
    requires cfg.Valid() && width >= 0.0 && height >= 0.0 && ValidTickDraws(d)
    ensures r == q.(nextTargetPoints := r.nextTargetPoints)
    ensures q.nextTargetPoints.Some? ==> r == q
    ensures !AnyOutOfBounds(q.currentPoints, cfg, width, height) ==> r == q
    ensures q.nextTargetPoints.None? && AnyOutOfBounds(q.currentPoints, cfg, width, height) ==>
      r.nextTargetPoints == Some(Recovery(cfg, width, height, d))
  {
    if q.nextTargetPoints.None? && AnyOutOfBounds(q.currentPoints, cfg, width, height) then
      q.(nextTargetPoints := Some(Recovery(cfg, width, height, d)))
    else
      q
  }

  // ---------------------------------------------------------------- one tick

  /**
   The shape after ageing, fade-in and expiry: the state the fade-out step
   looks at. It is exactly 16 older, only alpha and the two fade flags may
   differ otherwise, fadeOut is never cleared, and it is newly set only past
   a lifetime of 15000.
   */
  function Aged(q: Quad, cfg: Config, d: TickDraws): (r: Quad)
    requires IsRandom(d.expiry)
    ensures r == q.(lifetime := q.lifetime + FrameMillis, alpha := r.alpha, fadeIn := r.fadeIn,
                    fadeOut := r.fadeOut)
    ensures r.alpha == FadeIn(q, cfg).alpha && r.fadeIn == FadeIn(q, cfg).fadeIn
    ensures q.fadeOut ==> r.fadeOut
    ensures r.fadeOut && !q.fadeOut ==> q.lifetime + FrameMillis > MinLifetime
    ensures q.lifetime + FrameMillis >= MinLifetime + LifetimeSpread ==> r.fadeOut
  {
    Expire(FadeIn(q.(lifetime := q.lifetime + FrameMillis), cfg), Threshold(d.expiry))
  }

  /**
   This tick's fade-out ends the shape's life, so its slot gets a new shape:
   it is fading out and its alpha, above 0, is at most one fade-out step.
   */
  predicate Replaced(q: Quad, cfg: Config, d: TickDraws): (b: bool)
    requires IsRandom(d.expiry)
    ensures b <==> Aged(q, cfg, d).fadeOut && 0.0 < FadeIn(q, cfg).alpha <= cfg.fadeOutSpeed
    ensures b ==> q.fadeOut || q.lifetime + FrameMillis > MinLifetime
  {
    FadesAway(Aged(q, cfg, d), cfg)
  }

  /** The whole per-shape update of one tick, in the animation's order. */
  function Tick(q: Quad, cfg: Config, width: real, height: real, now: real, d: TickDraws): (r: Quad)
    requires cfg.Valid() && width >= 0.0 && height >= 0.0 && ValidTickDraws(d) && WellFormed(q)
    ensures WellFormed(r)
  {
    var aged := Aged(q, cfg, d);
    if FadesAway(aged, cfg) then
      CreateQuadrilateral(cfg, width, height, now, d.replacement)
    else
      Boundary(Drift(Transition(FadeOut(aged, cfg), cfg, now, d), d.drift), cfg, width, height, d)
  }

  /**
   A tick keeps the pool invariant: alpha and progress stay in [0, 1], every
   polygon keeps four points, the colours stay paired, and the transition
   start never lies after now (given that the clock does not run backwards).
   */
  lemma TickPreservesValid(q: Quad, cfg: Config, width: real, height: real, now: real, d: TickDraws)
    requires cfg.Valid() && width >= 0.0 && height >= 0.0 && ValidTickDraws(d)
    requires QuadValid(q, cfg) && q.lastTransitionTime <= now
    ensures QuadValid(Tick(q, cfg, width, height, now, d), cfg)
    ensures Tick(q, cfg, width, height, now, d).lastTransitionTime <= now
  {
    var aged := Aged(q, cfg, d);
    if FadesAway(aged, cfg) {
      CreatedIsValid(cfg, width, height, now, d.replacement);
    } else {
      var faded := FadeOut(aged, cfg);
      assert 0.0 <= faded.alpha <= 1.0;
      var moved := Transition(faded, cfg, now, d);
      assert 0.0 <= moved.transitionProgress <= 1.0;
      assert PairedColors(moved, cfg);
    }
  }

  /**
   Replacement: a shape whose fade-out completes this tick is replaced by a
   freshly created one (alpha 0, fading in, not fading out, progress 1,
   lifetime 0, nothing queued) and no later step runs on it. A shape that is
   not replaced is exactly 16 ms older and keeps its colours and speed.
   */
  lemma TickReplacement(q: Quad, cfg: Config, width: real, height: real, now: real, d: TickDraws)
    requires cfg.Valid() && width >= 0.0 && height >= 0.0 && ValidTickDraws(d) && WellFormed(q)
    ensures Replaced(q, cfg, d) ==>
      Tick(q, cfg, width, height, now, d) == CreateQuadrilateral(cfg, width, height, now, d.replacement)
    ensures !Replaced(q, cfg, d) ==>
      && Tick(q, cfg, width, height, now, d).lifetime == q.lifetime + FrameMillis
      && Tick(q, cfg, width, height, now, d).color == q.color
      && Tick(q, cfg, width, height, now, d).glowColor == q.glowColor
      && Tick(q, cfg, width, height, now, d).speed == q.speed
  {
  }

  /** A shape is replaced only while fading out, and a surviving shape never stops fading out. */
  lemma TickFadeOutSticky(q: Quad, cfg: Config, width: real, height: real, now: real, d: TickDraws)
    requires cfg.Valid() && width >= 0.0 && height >= 0.0 && ValidTickDraws(d) && WellFormed(q)
    ensures Replaced(q, cfg, d) ==> q.fadeOut || q.lifetime + FrameMillis > MinLifetime
    ensures !Replaced(q, cfg, d) && q.fadeOut ==> Tick(q, cfg, width, height, now, d).fadeOut
    ensures !Replaced(q, cfg, d) && q.lifetime + FrameMillis >= MinLifetime + LifetimeSpread ==>
      Tick(q, cfg, width, height, now, d).fadeOut
    ensures q.lifetime + FrameMillis <= MinLifetime ==>
      !Replaced(q, cfg, d) || q.fadeOut
    ensures q.lifetime + FrameMillis <= MinLifetime && !Replaced(q, cfg, d) ==>
      Tick(q, cfg, width, height, now, d).fadeOut == q.fadeOut
  {
    ExpiryWindow(FadeIn(q.(lifetime := q.lifetime + FrameMillis), cfg), d.expiry);
  }

  /**
   A queued target is consumed exactly once: at the next commit it becomes
   the target and the queue is emptied, unless the committed polygon is
   itself out of bounds, in which case a new recovery target is queued.
   */
  lemma TickConsumesQueue(q: Quad, cfg: Config, width: real, height: real, now: real, d: TickDraws)
    requires cfg.Valid() && width >= 0.0 && height >= 0.0 && ValidTickDraws(d) && WellFormed(q)
    requires !Replaced(q, cfg, d) && q.transitionProgress >= 1.0 && q.nextTargetPoints.Some?
    ensures Tick(q, cfg, width, height, now, d).targetPoints == q.nextTargetPoints.value
    ensures Tick(q, cfg, width, height, now, d).currentPoints == q.targetPoints
    ensures Tick(q, cfg, width, height, now, d).nextTargetPoints.Some? ==>
      && AnyOutOfBounds(q.targetPoints, cfg, width, height)
      && Tick(q, cfg, width, height, now, d).nextTargetPoints == Some(Recovery(cfg, width, height, d))
  {
  }

  /**
   Boundary rule over a whole tick: a surviving shape with nothing queued
   whose current points end the tick outside the widened canvas gets the
   recovery polygon queued; one that had a target queued and is mid-morph
   keeps that queue unchanged.
   */
  lemma TickRecovers(q: Quad, cfg: Config, width: real, height: real, now: real, d: TickDraws)
    requires cfg.Valid() && width >= 0.0 && height >= 0.0 && ValidTickDraws(d) && WellFormed(q)
    requires !Replaced(q, cfg, d)
    ensures q.nextTargetPoints.None? &&
            AnyOutOfBounds(Tick(q, cfg, width, height, now, d).currentPoints, cfg, width, height) ==>
      Tick(q, cfg, width, height, now, d).nextTargetPoints == Some(Recovery(cfg, width, height, d))
    ensures q.nextTargetPoints.Some? && q.transitionProgress < 1.0 ==>
      Tick(q, cfg, width, height, now, d).nextTargetPoints == q.nextTargetPoints
    ensures !AnyOutOfBounds(Tick(q, cfg, width, height, now, d).currentPoints, cfg, width, height) ==>
      Tick(q, cfg, width, height, now, d).nextTargetPoints
        == Transition(FadeOut(Aged(q, cfg, d), cfg), cfg, now, d).nextTargetPoints
  {
  }

  /**
   A morph completes: once a full transition duration has elapsed, a tick
   puts every current point exactly on its target with progress 1, and the
   tick after that commits, so the new current polygon is the old target
   and progress restarts at 0.
   */
  lemma TransitionArrives(q: Quad, cfg: Config, width: real, height: real, now: real, later: real,
                          d: TickDraws, d': TickDraws)
    requires cfg.Valid() && width >= 0.0 && height >= 0.0 && ValidTickDraws(d) && ValidTickDraws(d')
    requires WellFormed(q) && q.transitionProgress < 1.0
    requires now - q.lastTransitionTime >= cfg.transitionDuration
    requires !Replaced(q, cfg, d)
    requires !Replaced(Tick(q, cfg, width, height, now, d), cfg, d')
    ensures Tick(q, cfg, width, height, now, d).currentPoints == q.targetPoints
    ensures Tick(q, cfg, width, height, now, d).transitionProgress == 1.0
    ensures Tick(Tick(q, cfg, width, height, now, d), cfg, width, height, later, d').currentPoints
            == q.targetPoints
    ensures Tick(Tick(q, cfg, width, height, now, d), cfg, width, height, later, d').transitionProgress
            == 0.0
  {
    var faded := FadeOut(Aged(q, cfg, d), cfg);
    EasePointsApproach(faded.currentPoints, faded.targetPoints, 1.0);
  }

  /** Consecutive ticks, the i-th at time nows[i] with draws ds[i]. */
  function Ticks(q: Quad, cfg: Config, width: real, height: real, nows: seq<real>, ds: seq<TickDraws>): (r: Quad)
    requires cfg.Valid() && width >= 0.0 && height >= 0.0 && WellFormed(q)
    requires |nows| == |ds| && forall i :: 0 <= i < |ds| ==> ValidTickDraws(ds[i])
    ensures WellFormed(r)
    decreases |ds|
  {
    if |ds| == 0 then q
    else Ticks(Tick(q, cfg, width, height, nows[0], ds[0]), cfg, width, height, nows[1..], ds[1..])
  }

  /** The total of k equal increments of size step, added one at a time as the ticks do. */
  function Repeated(k: nat, step: real): (r: real)
    ensures step >= 0.0 ==> r >= 0.0
    decreases k
  {
    if k == 0 then 0.0 else step + Repeated(k - 1, step)
  }

  lemma RepeatedStep(n: nat, m: nat, step: real)
    requires n == m + 1
    ensures Repeated(n, step) == step + Repeated(m, step)
  {
  }

  /** k increments of size step add up to k * step. */
  lemma {:induction false} RepeatedIsProduct(k: nat, step: real)
    ensures Repeated(k, step) == (k as real) * step
    decreases k
  {
    if k > 0 {
      RepeatedIsProduct(k - 1, step);
      assert (k as real) * step == ((k - 1) as real) * step + step;
    }
  }

  /** A run of ticks is its first tick followed by the rest. */
  lemma TicksStep(q: Quad, cfg: Config, width: real, height: real, nows: seq<real>, ds: seq<TickDraws>)
    requires cfg.Valid() && width >= 0.0 && height >= 0.0 && WellFormed(q)
    requires |nows| == |ds| && forall i :: 0 <= i < |ds| ==> ValidTickDraws(ds[i])
    requires |ds| > 0
    ensures Ticks(q, cfg, width, height, nows, ds)
            == Ticks(Tick(q, cfg, width, height, nows[0], ds[0]), cfg, width, height, nows[1..], ds[1..])
  {
  }

  /**
   A young shape that is not fading out (its lifetime stays at most 15000
   through this tick) survives the tick, is not fading out afterwards, and
   its alpha and fadeIn are exactly those of one fade-in step.
   */
  lemma TickWhileYoung(q: Quad, cfg: Config, width: real, height: real, now: real, d: TickDraws)
    requires cfg.Valid() && width >= 0.0 && height >= 0.0 && ValidTickDraws(d) && WellFormed(q)
    requires !q.fadeOut && q.lifetime + FrameMillis <= MinLifetime
    ensures !Replaced(q, cfg, d)
    ensures Tick(q, cfg, width, height, now, d).alpha == FadeIn(q, cfg).alpha
    ensures Tick(q, cfg, width, height, now, d).fadeIn == FadeIn(q, cfg).fadeIn
    ensures !Tick(q, cfg, width, height, now, d).fadeOut
    ensures Tick(q, cfg, width, height, now, d).lifetime == q.lifetime + FrameMillis
  {
  }

  /**
   Over whole ticks: a shape fading in from alpha a in [0, 1), not fading
   out, is fully opaque with its fade-in finished after any n ticks with
   a + n * fadeInSpeed >= 1, as long as its lifetime stays at most 15000
   (so a fresh shape needs ceil(1 / fadeInSpeed) ticks).
   */
  lemma TicksFadeIn(q: Quad, cfg: Config, width: real, height: real, nows: seq<real>, ds: seq<TickDraws>)
    requires cfg.Valid() && width >= 0.0 && height >= 0.0 && WellFormed(q)
    requires |nows| == |ds| && forall i :: 0 <= i < |ds| ==> ValidTickDraws(ds[i])
    requires q.fadeIn && !q.fadeOut && 0.0 <= q.alpha < 1.0 && cfg.fadeInSpeed > 0.0
    requires q.alpha + (|ds| as real) * cfg.fadeInSpeed >= 1.0
    requires q.lifetime + FrameMillis * (|ds| as real) <= MinLifetime
    ensures Ticks(q, cfg, width, height, nows, ds).alpha == 1.0
    ensures !Ticks(q, cfg, width, height, nows, ds).fadeIn
    ensures !Ticks(q, cfg, width, height, nows, ds).fadeOut
  {
    RepeatedIsProduct(|ds|, cfg.fadeInSpeed);
    RepeatedIsProduct(|ds|, FrameMillis);
    FadingInRun(q, cfg, width, height, nows, ds);
  }

  /** TicksFadeIn with the budgets written as repeated increments. */
  lemma {:induction false} FadingInRun(q: Quad, cfg: Config, width: real, height: real,
                                       nows: seq<real>, ds: seq<TickDraws>)
    requires cfg.Valid() && width >= 0.0 && height >= 0.0 && WellFormed(q)
    requires |nows| == |ds| && forall i :: 0 <= i < |ds| ==> ValidTickDraws(ds[i])
    requires q.fadeIn && !q.fadeOut && 0.0 <= q.alpha < 1.0 && cfg.fadeInSpeed > 0.0
    requires q.alpha + Repeated(|ds|, cfg.fadeInSpeed) >= 1.0
    requires q.lifetime + Repeated(|ds|, FrameMillis) <= MinLifetime
    ensures Ticks(q, cfg, width, height, nows, ds).alpha == 1.0
    ensures !Ticks(q, cfg, width, height, nows, ds).fadeIn
    ensures !Ticks(q, cfg, width, height, nows, ds).fadeOut
    decreases |ds|
  {
    assert |ds| > 0;
    var q' := YoungTick(q, cfg, width, height, nows, ds);
    TailDraws(ds);
    FadeInBudget(q, q', cfg, |ds|, |ds[1..]|);
    if q'.fadeIn {
      FadingInRun(q', cfg, width, height, nows[1..], ds[1..]);
    } else {
      OpaqueRun(q', cfg, width, height, nows[1..], ds[1..]);
    }
  }

  /** Every draw of the remaining ticks is a valid draw. */
  lemma TailDraws(ds: seq<TickDraws>)
    requires |ds| > 0 && forall i :: 0 <= i < |ds| ==> ValidTickDraws(ds[i])
    ensures forall i :: 0 <= i < |ds[1..]| ==> ValidTickDraws(ds[1..][i])
  {
  }

  /**
   The first of a run of ticks of a young shape that is not fading out: its
   result q' is what TickWhileYoung describes, and the remaining ticks start
   from q'.
   */
  lemma YoungTick(q: Quad, cfg: Config, width: real, height: real,
                  nows: seq<real>, ds: seq<TickDraws>) returns (q': Quad)
    requires cfg.Valid() && width >= 0.0 && height >= 0.0 && WellFormed(q)
    requires |nows| == |ds| && forall i :: 0 <= i < |ds| ==> ValidTickDraws(ds[i])
    requires |ds| > 0 && !q.fadeOut && q.lifetime + FrameMillis <= MinLifetime
    ensures |nows[1..]| == |ds[1..]| == |ds| - 1
    ensures WellFormed(q') && !q'.fadeOut
    ensures q'.alpha == FadeIn(q, cfg).alpha && q'.fadeIn == FadeIn(q, cfg).fadeIn
    ensures q'.lifetime == q.lifetime + FrameMillis
    ensures Ticks(q, cfg, width, height, nows, ds) == Ticks(q', cfg, width, height, nows[1..], ds[1..])
  {
    q' := Tick(q, cfg, width, height, nows[0], ds[0]);
    TickWhileYoung(q, cfg, width, height, nows[0], ds[0]);
    TicksStep(q, cfg, width, height, nows, ds);
  }

  /**
   One fade-in step leaves enough budget for the remaining m = n - 1 ticks:
   the shape is either still fading in below 1 with alpha + m * fadeInSpeed
   >= 1, or fully opaque; and its lifetime stays within 15000 for m more ticks.
   */
  lemma FadeInBudget(q: Quad, q': Quad, cfg: Config, n: nat, m: nat)
    requires q.fadeIn && 0.0 <= q.alpha < 1.0 && cfg.fadeInSpeed > 0.0
    requires n == m + 1 && q.alpha + Repeated(n, cfg.fadeInSpeed) >= 1.0
    requires q.lifetime + Repeated(n, FrameMillis) <= MinLifetime
    requires q'.alpha == FadeIn(q, cfg).alpha && q'.fadeIn == FadeIn(q, cfg).fadeIn
    requires q'.lifetime == q.lifetime + FrameMillis
    ensures q'.lifetime + Repeated(m, FrameMillis) <= MinLifetime
    ensures q'.fadeIn ==> 0.0 <= q'.alpha < 1.0 && q'.alpha + Repeated(m, cfg.fadeInSpeed) >= 1.0
    ensures !q'.fadeIn ==> q'.alpha == 1.0
  {
  }

  /** A fully opaque shape that is neither fading in nor out stays so while its lifetime is at most 15000. */
  lemma TicksOpaque(q: Quad, cfg: Config, width: real, height: real, nows: seq<real>, ds: seq<TickDraws>)
    requires cfg.Valid() && width >= 0.0 && height >= 0.0 && WellFormed(q)
    requires |nows| == |ds| && forall i :: 0 <= i < |ds| ==> ValidTickDraws(ds[i])
    requires !q.fadeIn && !q.fadeOut && q.alpha == 1.0
    requires q.lifetime + FrameMillis * (|ds| as real) <= MinLifetime
    ensures Ticks(q, cfg, width, height, nows, ds).alpha == 1.0
    ensures !Ticks(q, cfg, width, height, nows, ds).fadeIn
    ensures !Ticks(q, cfg, width, height, nows, ds).fadeOut
  {
    RepeatedIsProduct(|ds|, FrameMillis);
    OpaqueRun(q, cfg, width, height, nows, ds);
  }

  /** TicksOpaque with the lifetime budget written as repeated increments. */
  lemma {:induction false} OpaqueRun(q: Quad, cfg: Config, width: real, height: real,
                                     nows: seq<real>, ds: seq<TickDraws>)
    requires cfg.Valid() && width >= 0.0 && height >= 0.0 && WellFormed(q)
    requires |nows| == |ds| && forall i :: 0 <= i < |ds| ==> ValidTickDraws(ds[i])
    requires !q.fadeIn && !q.fadeOut && q.alpha == 1.0
    requires q.lifetime + Repeated(|ds|, FrameMillis) <= MinLifetime
    ensures Ticks(q, cfg, width, height, nows, ds).alpha == 1.0
    ensures !Ticks(q, cfg, width, height, nows, ds).fadeIn
    ensures !Ticks(q, cfg, width, height, nows, ds).fadeOut
    decreases |ds|
  {
    if |ds| > 0 {
      RepeatedStep(|ds|, |ds[1..]|, FrameMillis);
      var q' := YoungTick(q, cfg, width, height, nows, ds);
      TailDraws(ds);
      OpaqueRun(q', cfg, width, height, nows[1..], ds[1..]);
    }
  }

  // ---------------------------------------------------------------- the procedure

  /** The easing loop: each of the four points moves to its eased blend toward its target. */
  method EaseEachPoint(current: seq<Point>, target: seq<Point>, t: real) returns (pts: seq<Point>)
    requires |current| == 4 && |target| == 4
    ensures pts == EasePoints(current, target, t)
  {
    pts := current;
    var i := 0;
    while i < 4
      invariant 0 <= i <= 4 && |pts| == 4
      invariant forall j :: 0 <= j < i ==> pts[j] == Interpolate(current[j], target[j], t)
      invariant forall j :: i <= j < 4 ==> pts[j] == current[j]
    {
      pts := pts[i := Interpolate(pts[i], target[i], t)];
      i := i + 1;
    }
  }

  /** The boundary loop: the first out-of-bounds point queues a recovery target if none is queued. */
  method CheckBounds(q: Quad, cfg: Config, width: real, height: real, d: TickDraws) returns (r: Quad)
    requires cfg.Valid() && width >= 0.0 && height >= 0.0 && ValidTickDraws(d) && |q.currentPoints| == 4
    ensures r == Boundary(q, cfg, width, height, d)
  {
    r := q;
    var i := 0;
    while i < 4
      invariant 0 <= i <= 4
      invariant r == if q.nextTargetPoints.None? && AnyOutOfBounds(q.currentPoints[..i], cfg, width, height)
                     then q.(nextTargetPoints := Some(Recovery(cfg, width, height, d)))
                     else q
    {
      assert q.currentPoints[..i + 1] == q.currentPoints[..i] + [q.currentPoints[i]];
      if OutOfBounds(r.currentPoints[i], cfg, width, height) {
        if r.nextTargetPoints.None? {
          r := r.(nextTargetPoints := Some(Recovery(cfg, width, height, d)));
        }
      }
      i := i + 1;
    }
    assert q.currentPoints[..4] == q.currentPoints;
  }

  /** The per-shape body of the update pass, statement by statement. */
  method TickQuad(q: Quad, cfg: Config, width: real, height: real, now: real, d: TickDraws)
    returns (r: Quad)
    requires cfg.Valid() && width >= 0.0 && height >= 0.0 && ValidTickDraws(d) && WellFormed(q)
    ensures r == Tick(q, cfg, width, height, now, d)
  {
    var quad := q.(lifetime := q.lifetime + FrameMillis);
    if quad.fadeIn && quad.alpha < 1.0 {
      quad := quad.(alpha := quad.alpha + cfg.fadeInSpeed);
      if quad.alpha >= 1.0 {
        quad := quad.(alpha := 1.0, fadeIn := false);
      }
    }
    assert quad == FadeIn(q.(lifetime := q.lifetime + FrameMillis), cfg);
    if quad.lifetime > Threshold(d.expiry) {
      quad := quad.(fadeOut := true);
    }
    assert quad == Aged(q, cfg, d);
    if quad.fadeOut && quad.alpha > 0.0 {
      quad := quad.(alpha := quad.alpha - cfg.fadeOutSpeed);
      if quad.alpha <= 0.0 {
        r := CreateQuadrilateral(cfg, width, height, now, d.replacement);
        return;
      }
    }
    assert !FadesAway(Aged(q, cfg, d), cfg) && quad == FadeOut(Aged(q, cfg, d), cfg);
    ghost var faded := quad;
    if quad.transitionProgress >= 1.0 {
      quad := quad.(lastTransitionTime := now, transitionProgress := 0.0,
                    currentPoints := quad.targetPoints);
      if quad.nextTargetPoints.Some? {
        quad := quad.(targetPoints := quad.nextTargetPoints.value, nextTargetPoints := None);
      } else {
        quad := quad.(targetPoints := Polygon(cfg, quad.centerX, quad.centerY, d.retargetSize, d.retarget));
      }
    } else {
      var p := Min(1.0, (now - quad.lastTransitionTime) / cfg.transitionDuration);
      quad := quad.(transitionProgress := p);
      var eased := EaseEachPoint(quad.currentPoints, quad.targetPoints, p);
      quad := quad.(currentPoints := eased);
    }
    assert quad == Transition(faded, cfg, now, d);
    quad := Drift(quad, d.drift);
    r := CheckBounds(quad, cfg, width, height, d);
  }
}
