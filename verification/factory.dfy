/**
 The configuration, the quadrilateral record, and the factory that builds a
 fresh quadrilateral from a canvas size and a batch of random draws.

 Every Math.random() result is an explicit real in [0, 1); every cos/sin
 pair is an explicit unit direction.
 */
module Factory {
  import opened Geometry
  import opened Wrappers

  type Color = string

  /** The fields of the animation's configuration that the shape lifecycle reads. */
  datatype Config = Config(
    numQuadrilaterals: nat,
    minSize: real,
    maxSize: real,
    colors: seq<Color>,
    glowColors: seq<Color>,
    transitionDuration: real,
    baseSpeed: real,
    variation: real,
    fadeInSpeed: real,
    fadeOutSpeed: real)
  {
    /** What the lifecycle needs of a configuration to stay well defined. */
    predicate Valid()
    {
      && 0.0 <= minSize <= maxSize
      && |colors| > 0
      && |glowColors| == |colors|
      && transitionDuration > 0.0
      && variation >= 0.0
      && fadeInSpeed >= 0.0
      && fadeOutSpeed >= 0.0
    }
  }

  /** The built-in defaults: 15 shapes of size 80 to 250 over an 8-colour palette. */
  function DefaultConfig(): (c: Config)
    ensures c.Valid()
    ensures c.numQuadrilaterals == 15 && |c.colors| == 8
    ensures c.minSize == 80.0 && c.maxSize == 250.0 && c.transitionDuration == 3000.0
  {
    Config(
      15, 80.0, 250.0,
      ["#7bb3ff", "#8cc5ff", "#9ed7ff", "#afeeff", "#b9d5ff", "#c7bdff", "#d5a6ff", "#e38fff"],
      ["rgba(123, 179, 255, 0.3)", "rgba(139, 197, 255, 0.3)",
       "rgba(158, 215, 255, 0.3)", "rgba(175, 238, 255, 0.3)",
       "rgba(185, 213, 255, 0.3)", "rgba(199, 189, 255, 0.3)",
       "rgba(213, 166, 255, 0.3)", "rgba(227, 143, 255, 0.3)"],
      3000.0, 0.02, 0.04, 0.02, 0.01)
  }

  /** One animated shape, as the pool holds it. */
  datatype Quad = Quad(
    centerX: real,
    centerY: real,
    currentPoints: seq<Point>,
    targetPoints: seq<Point>,
    nextTargetPoints: Option<seq<Point>>,
    color: Color,
    glowColor: Color,
    speed: real,
    transitionProgress: real,
    alpha: real,
    fadeIn: bool,
    fadeOut: bool,
    lastTransitionTime: real,
    lifetime: real)

  /** A value Math.random() can return. */
  predicate IsRandom(r: real)
  {
    0.0 <= r < 1.0
  }

  /** The inputs for one vertex: its direction (cos, sin of its angle) and the radius draw. */
  datatype VertexDraw = VertexDraw(dir: Dir, radius: real)

  predicate ValidVertices(vs: seq<VertexDraw>)
  {
    |vs| == 4 && forall i :: 0 <= i < |vs| ==> IsUnit(vs[i].dir) && IsRandom(vs[i].radius)
  }

  /** Everything createQuadrilateral draws at random. */
  datatype ShapeDraws = ShapeDraws(
    centerX: real,
    centerY: real,
    size: real,
    color: real,
    speed: real,
    current: seq<VertexDraw>,
    target: seq<VertexDraw>)

  predicate ValidShapeDraws(d: ShapeDraws)
  {
    && IsRandom(d.centerX) && IsRandom(d.centerY) && IsRandom(d.size)
    && IsRandom(d.color) && IsRandom(d.speed)
    && ValidVertices(d.current) && ValidVertices(d.target)
  }

  /** A shape size drawn uniformly from the configured range. */
  function Size(cfg: Config, r: real): (size: real)
    requires cfg.Valid() && IsRandom(r)
    ensures cfg.minSize <= size <= cfg.maxSize
  {
    ScaledInRange(cfg.minSize, cfg.maxSize, r);
    cfg.minSize + r * (cfg.maxSize - cfg.minSize)
  }

  lemma ScaledInRange(lo: real, hi: real, r: real)
    requires lo <= hi && 0.0 <= r <= 1.0
    ensures lo <= lo + r * (hi - lo) <= hi
  {
    var span := hi - lo;
    MulLe(span, r, 1.0);
    MulNonneg(span, r);
    assert r * span == span * r;
  }

  /** Math.floor(r * n): the palette index, always a valid index. */
  function ColorIndex(r: real, n: nat): (k: int)
    requires IsRandom(r) && n > 0
    ensures 0 <= k < n
  {
    MulLe(n as real, r, 1.0);
    MulNonneg(r, n as real);
    (r * n as real).Floor
  }

  /** A signed speed within variation / 2 of the base speed. */
  function Speed(cfg: Config, r: real): (speed: real)
    requires cfg.Valid() && IsRandom(r)
    ensures cfg.baseSpeed - cfg.variation / 2.0 <= speed <= cfg.baseSpeed + cfg.variation / 2.0
  {
    MulLe(cfg.variation, r, 1.0);
    MulLe(cfg.variation, 0.0, r);
    (r - 0.5) * cfg.variation + cfg.baseSpeed
  }

  /** The radius of one vertex: size scaled by a factor in [0.8, 1.2). */
  function Radius(size: real, r: real): (radius: real)
    requires size >= 0.0 && IsRandom(r)
    ensures 0.8 * size <= radius <= 1.2 * size
  {
    MulLe(size, 0.0, r);
    MulLe(size, r, 1.0);
    size * (0.8 + r * 0.4)
  }

  /** Every point lies at a distance in [lo, hi] from (cx, cy). */
  predicate WithinReach(pts: seq<Point>, cx: real, cy: real, lo: real, hi: real)
  {
    forall i :: 0 <= i < |pts| ==> lo * lo <= SqDist(pts[i], Point(cx, cy)) <= hi * hi
  }

  /**
   One vertex: the centre moved along the vertex's direction by its radius.
   Along a unit direction it lies at a distance in [0.8 size, 1.2 size] from
   the centre.
   */
  function Vertex(cx: real, cy: real, size: real, v: VertexDraw): (p: Point)
    requires size >= 0.0 && IsRandom(v.radius)
    ensures IsUnit(v.dir) ==> (0.8 * size) * (0.8 * size) <= SqDist(p, Point(cx, cy))
    ensures IsUnit(v.dir) ==> SqDist(p, Point(cx, cy)) <= (1.2 * size) * (1.2 * size)
  {
    var radius := Radius(size, v.radius);
    var p := Point(cx + radius * v.dir.cos, cy + radius * v.dir.sin);
    if IsUnit(v.dir) then
      AlongUnitDirection(cx, cy, radius, v.dir);
      SquareLe(0.8 * size, radius);
      SquareLe(radius, 1.2 * size);
      p
    else p
  }

  /** A point reached from a centre along a unit direction lies at exactly that radius. */
  lemma AlongUnitDirection(cx: real, cy: real, radius: real, dir: Dir)
    requires IsUnit(dir)
    ensures SqDist(Point(cx + radius * dir.cos, cy + radius * dir.sin), Point(cx, cy)) == radius * radius
  {
    var c, s := dir.cos, dir.sin;
    calc {
      SqDist(Point(cx + radius * c, cy + radius * s), Point(cx, cy));
      (radius * c) * (radius * c) + (radius * s) * (radius * s);
      radius * radius * (c * c + s * s);
      radius * radius;
    }
  }

  lemma SquareLe(a: real, b: real)
    requires 0.0 <= a <= b
    ensures a * a <= b * b
  {
    MulLe(a, a, b);
    MulLe(b, a, b);
  }

  /**
   generateQuadrilateralPoints: exactly four points, each at a distance in
   [0.8 size, 1.2 size] from the centre.
   */
  function GeneratePoints(cx: real, cy: real, size: real, vs: seq<VertexDraw>): (pts: seq<Point>)
    requires size >= 0.0 && ValidVertices(vs)
    ensures |pts| == 4
    ensures WithinReach(pts, cx, cy, 0.8 * size, 1.2 * size)
  {
    var pts := seq(4, i requires 0 <= i < 4 => Vertex(cx, cy, size, vs[i]));
    forall i | 0 <= i < 4
      ensures (0.8 * size) * (0.8 * size) <= SqDist(pts[i], Point(cx, cy)) <= (1.2 * size) * (1.2 * size)
    {
    }
    pts
  }

  /** A reach for a larger radius range includes a reach for a smaller one. */
  lemma WithinReachWiden(pts: seq<Point>, cx: real, cy: real, lo: real, hi: real, lo': real, hi': real)
    requires WithinReach(pts, cx, cy, lo, hi)
    requires 0.0 <= lo' <= lo && 0.0 <= hi <= hi'
    ensures WithinReach(pts, cx, cy, lo', hi')
  {
    SquareLe(lo', lo);
    SquareLe(hi, hi');
  }

  /** A new target polygon around (cx, cy) whose size is drawn from the configured range. */
  function Polygon(cfg: Config, cx: real, cy: real, sizeDraw: real, vs: seq<VertexDraw>): (pts: seq<Point>)
    requires cfg.Valid() && IsRandom(sizeDraw) && ValidVertices(vs)
    ensures |pts| == 4
    ensures WithinReach(pts, cx, cy, 0.8 * cfg.minSize, 1.2 * cfg.maxSize)
  {
    var size := Size(cfg, sizeDraw);
    var pts := GeneratePoints(cx, cy, size, vs);
    WithinReachWiden(pts, cx, cy, 0.8 * size, 1.2 * size, 0.8 * cfg.minSize, 1.2 * cfg.maxSize);
    pts
  }

  /** color and glowColor come from one and the same palette index. */
  predicate PairedColors(q: Quad, cfg: Config)
  {
    exists k :: 0 <= k < |cfg.colors| && k < |cfg.glowColors|
      && q.color == cfg.colors[k] && q.glowColor == cfg.glowColors[k]
  }

  /**
   createQuadrilateral: a shape that is invisible, fading in, not fading out,
   due for a fresh target on its first tick, with no queued target, two
   four-point polygons around a centre on the canvas, and a paired colour.
   */
  function CreateQuadrilateral(cfg: Config, width: real, height: real, now: real, d: ShapeDraws): (q: Quad)
    requires cfg.Valid() && ValidShapeDraws(d)
    requires width >= 0.0 && height >= 0.0
    ensures q.alpha == 0.0 && q.fadeIn && !q.fadeOut
    ensures q.transitionProgress == 1.0 && q.lifetime == 0.0
    ensures q.nextTargetPoints == None && q.lastTransitionTime == now
    ensures 0.0 <= q.centerX <= width && 0.0 <= q.centerY <= height
    ensures |q.currentPoints| == 4 && |q.targetPoints| == 4
    ensures WithinReach(q.currentPoints, q.centerX, q.centerY, 0.8 * cfg.minSize, 1.2 * cfg.maxSize)
    ensures WithinReach(q.targetPoints, q.centerX, q.centerY, 0.8 * cfg.minSize, 1.2 * cfg.maxSize)
    ensures PairedColors(q, cfg)
    ensures q.color == cfg.colors[ColorIndex(d.color, |cfg.colors|)]
    ensures q.glowColor == cfg.glowColors[ColorIndex(d.color, |cfg.colors|)]
    ensures cfg.baseSpeed - cfg.variation / 2.0 <= q.speed <= cfg.baseSpeed + cfg.variation / 2.0
  {
    MulLe(width, d.centerX, 1.0);
    MulLe(height, d.centerY, 1.0);
    MulNonneg(d.centerX, width);
    MulNonneg(d.centerY, height);
    var cx := d.centerX * width;
    var cy := d.centerY * height;
    var size := Size(cfg, d.size);
    var k := ColorIndex(d.color, |cfg.colors|);
    var current := GeneratePoints(cx, cy, size, d.current);
    var target := GeneratePoints(cx, cy, size, d.target);
    WithinReachWiden(current, cx, cy, 0.8 * size, 1.2 * size, 0.8 * cfg.minSize, 1.2 * cfg.maxSize);
    WithinReachWiden(target, cx, cy, 0.8 * size, 1.2 * size, 0.8 * cfg.minSize, 1.2 * cfg.maxSize);
    Quad(cx, cy, current, target, None, cfg.colors[k], cfg.glowColors[k], Speed(cfg, d.speed),
         1.0, 0.0, true, false, now, 0.0)
  }
}
