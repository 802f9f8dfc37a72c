/**
 Points, unit directions and the eased blend between two points that the
 animation uses to morph a quadrilateral's vertices toward their targets.
 */
module Geometry {

  /** A coordinate on the drawing surface. */
  datatype Point = Point(x: real, y: real)

  /**
   The pair (cos a, sin a) for some angle a. Trigonometry is not modelled:
   whoever needs cos and sin of an angle receives them as a Dir.
   */
  datatype Dir = Dir(cos: real, sin: real)

  /** Squared Euclidean distance; the model never needs a square root. */
  function SqDist(p: Point, q: Point): real
  {
    (p.x - q.x) * (p.x - q.x) + (p.y - q.y) * (p.y - q.y)
  }

  predicate IsUnit(d: Dir)
  {
    d.cos * d.cos + d.sin * d.sin == 1.0
  }

  /** The lower branch of the ease-in-out curve, used for t < 0.5. */
  function EaseIn(t: real): real
  {
    2.0 * t * t
  }

  /** The upper branch of the ease-in-out curve, -1 + (4 - 2t)t = 1 - (2 - 2t)^2 / 2. */
  function EaseOut(t: real): real
  {
    -1.0 + (4.0 - 2.0 * t) * t
  }

  /** The piecewise-quadratic ease-in-out applied to a transition progress t. */
  function Ease(t: real): (e: real)
    ensures t == 0.0 ==> e == 0.0
    ensures t == 1.0 ==> e == 1.0
    ensures 0.0 <= t <= 1.0 ==> 0.0 <= e <= 1.0
    ensures 0.0 <= t < 0.5 ==> e <= 0.5
    ensures 0.5 <= t <= 1.0 ==> 0.5 <= e
  {
    if t < 0.5 then
      if 0.0 <= t then MulLe(t, t, 0.5); MulNonneg(t, t); EaseIn(t) else EaseIn(t)
    else
      if t <= 1.0 then EaseOutBounds(t); EaseOut(t) else EaseOut(t)
  }

  lemma EaseOutBounds(t: real)
    requires 0.5 <= t <= 1.0
    ensures t <= EaseOut(t) <= 1.0
  {
    var u := 1.0 - t;
    assert EaseOut(t) == 1.0 - 2.0 * (u * u);
    MulLe(u, u, 0.5);
    MulNonneg(u, u);
    assert 2.0 * (u * u) <= u;
  }

  /** The two branches meet at 0.5, so the curve has no jump at the seam. */
  lemma EaseSeam()
    ensures EaseIn(0.5) == EaseOut(0.5) == Ease(0.5) == 0.5
  {
  }

  /** The curve is point-symmetric about (0.5, 0.5): easing in mirrors easing out. */
  lemma EaseSymmetric(t: real)
    ensures Ease(1.0 - t) == 1.0 - Ease(t)
  {
    if t < 0.5 {
      assert EaseOut(1.0 - t) == 1.0 - EaseIn(t);
    } else if t > 0.5 {
      assert EaseIn(1.0 - t) == 1.0 - EaseOut(t);
    } else {
      EaseSeam();
    }
  }

  /** On [0, 1] the eased progress never goes backwards. */
  lemma EaseMonotone(s: real, t: real)
    requires 0.0 <= s <= t <= 1.0
    ensures Ease(s) <= Ease(t)
  {
    if t < 0.5 {
      EaseInMonotone(s, t);
    } else if s >= 0.5 {
      EaseOutMonotone(s, t);
    } else {
      assert Ease(s) <= 0.5 <= Ease(t);
    }
  }

  lemma EaseInMonotone(s: real, t: real)
    requires 0.0 <= s <= t
    ensures EaseIn(s) <= EaseIn(t)
  {
    MulLe(s, s, t);
    MulLe(t, s, t);
  }

  lemma EaseOutMonotone(s: real, t: real)
    requires s <= t && s + t <= 2.0
    ensures EaseOut(s) <= EaseOut(t)
  {
    assert EaseOut(t) - EaseOut(s) == (t - s) * (4.0 - 2.0 * (t + s));
    MulNonneg(t - s, 4.0 - 2.0 * (t + s));
  }

  /** Linear blend from p1 toward p2 by the eased value of t. */
  function Interpolate(p1: Point, p2: Point, t: real): (p: Point)
    ensures t == 0.0 ==> p == p1
    ensures t == 1.0 ==> p == p2
  {
    var e := Ease(t);
    Point(p1.x + (p2.x - p1.x) * e, p1.y + (p2.y - p1.y) * e)
  }

  predicate Between(v: real, a: real, b: real)
  {
    (a <= v <= b) || (b <= v <= a)
  }

  function Abs(v: real): (r: real)
    ensures r >= 0.0 && (r == v || r == -v)
  {
    if v < 0.0 then -v else v
  }

  /**
   For a progress in [0, 1] each coordinate of the blended point lies between
   those of the two end points, and the blended point is no farther from p2,
   axis by axis, than p1 was.
   */
  lemma InterpolateBetween(p1: Point, p2: Point, t: real)
    requires 0.0 <= t <= 1.0
    ensures Between(Interpolate(p1, p2, t).x, p1.x, p2.x)
    ensures Between(Interpolate(p1, p2, t).y, p1.y, p2.y)
    ensures Abs(Interpolate(p1, p2, t).x - p2.x) <= Abs(p1.x - p2.x)
    ensures Abs(Interpolate(p1, p2, t).y - p2.y) <= Abs(p1.y - p2.y)
  {
    var e := Ease(t);
    BlendBetween(p1.x, p2.x, e);
    BlendBetween(p1.y, p2.y, e);
  }

  lemma BlendBetween(a: real, b: real, e: real)
    requires 0.0 <= e <= 1.0
    ensures Between(a + (b - a) * e, a, b)
    ensures Abs(a + (b - a) * e - b) <= Abs(a - b)
  {
    assert a + (b - a) * e - b == (a - b) * (1.0 - e);
    if a <= b {
      MulLe(b - a, e, 1.0);
      MulNonneg(b - a, e);
      MulLe(b - a, 1.0 - e, 1.0);
      MulNonneg(b - a, 1.0 - e);
    } else {
      MulLe(a - b, e, 1.0);
      MulNonneg(a - b, e);
      MulLe(a - b, 1.0 - e, 1.0);
      MulNonneg(a - b, 1.0 - e);
    }
  }

  lemma MulNonneg(a: real, b: real)
    requires 0.0 <= a && 0.0 <= b
    ensures 0.0 <= a * b
  {
  }

  /** Multiplying by a non-negative factor keeps an inequality. */
  lemma MulLe(a: real, b: real, c: real)
    requires 0.0 <= a && b <= c
    ensures a * b <= a * c
  {
    MulNonneg(a, c - b);
    assert a * (c - b) == a * c - a * b;
  }
}
