/**
 * The two geometry helpers of the length utilities: the distance from a
 * point to a segment, and the test whether a ray crosses a segment.
 */
module Geometry {
  import opened Plan

  // ------------------------------------------------------------------
  // Point to segment distance
  // ------------------------------------------------------------------

  /** The point a fraction `t` of the way from `a` to `b`. */
  function PointAlong(a: Point, b: Point, t: real): Point
  {
    Point(a.x + t * (b.x - a.x), a.y + t * (b.y - a.y))
  }

  /** `(p.x - q.x) ** 2 + (p.y - q.y) ** 2`. */
  function SquaredDistance(p: Point, q: Point): (r: real)
    ensures r >= 0.0
    ensures !(p.x - q.x == 0.0 && p.y - q.y == 0.0) ==> r > 0.0
  {
    Sq(p.x - q.x) + Sq(p.y - q.y)
  }

  /**
   * `x * x`. Its sign is stated here, where the solver sees the product of
   * the parameter with itself, so that proofs about sums of squares need
   * only linear reasoning about `Sq` terms.
   */
  function Sq(x: real): (r: real)
    ensures r >= 0.0
    ensures x != 0.0 ==> r > 0.0
  {
    var sign := if x > 0.0 then PositiveProduct(x, x) else if x < 0.0 then PositiveProduct(-x, -x) else 0.0;
    assert sign == x * x;
    x * x
  }

  function PositiveProduct(d: real, e: real): (r: real)
    requires d > 0.0 && e > 0.0
    ensures r > 0.0
  {
    d * e
  }

  lemma SqValue(x: real)
    ensures Sq(x) == x * x
  {
  }

  predicate Degenerate(a: Point, b: Point)
  {
    b.x - a.x == 0.0 && b.y - a.y == 0.0
  }

  /** The dot product of `p - a` with `b - a`. */
  function Projection(p: Point, a: Point, b: Point): real
  {
    (p.x - a.x) * (b.x - a.x) + (p.y - a.y) * (b.y - a.y)
  }

  /** The parameter of the foot of the perpendicular from `p` to line `ab`. */
  function FootParameter(p: Point, a: Point, b: Point): real
    requires !Degenerate(a, b)
  {
    Projection(p, a, b) / SquaredDistance(b, a)
  }

  /** `Math.max(0, Math.min(1, t))`. */
  function ClampUnit(t: real): (r: real)
    ensures 0.0 <= r <= 1.0
    ensures 0.0 <= t <= 1.0 ==> r == t
  {
    if 1.0 < t then 1.0 else if t < 0.0 then 0.0 else t
  }

  /** The point of segment `ab` the distance is measured to. */
  function ClosestPoint(p: Point, a: Point, b: Point): Point
    requires !Degenerate(a, b)
  {
    PointAlong(a, b, ClampUnit(FootParameter(p, a, b)))
  }

  /** `distancePointToSegmentWorld(px, py, x1, y1, x2, y2)`. */
  function DistancePointToSegment(sqrt: real -> real, p: Point, a: Point, b: Point): real
  {
    if Degenerate(a, b) then sqrt(SquaredDistance(p, a))
    else sqrt(SquaredDistance(p, ClosestPoint(p, a, b)))
  }

  /** The distance is non-negative, and for a degenerate segment it is the distance to its point. */
  lemma DistanceBasics(sqrt: real -> real, p: Point, a: Point, b: Point)
    requires IsSqrt(sqrt)
    ensures DistancePointToSegment(sqrt, p, a, b) >= 0.0
    ensures Degenerate(a, b) ==> DistancePointToSegment(sqrt, p, a, b) == sqrt(SquaredDistance(p, a))
  {
  }

  /** The distance is measured to a point of the segment, clamped to its ends. */
  lemma DistanceToSegmentPoint(sqrt: real -> real, p: Point, a: Point, b: Point)
    ensures exists t: real :: 0.0 <= t <= 1.0 &&
              DistancePointToSegment(sqrt, p, a, b) == sqrt(SquaredDistance(p, PointAlong(a, b, t)))
  {
    if Degenerate(a, b) {
      assert PointAlong(a, b, 0.0) == a;
    } else {
      var t := ClampUnit(FootParameter(p, a, b));
      assert DistancePointToSegment(sqrt, p, a, b) == sqrt(SquaredDistance(p, PointAlong(a, b, t)));
    }
  }

  /** `l*s*s - 2*s*k + w`. */
  function Quadratic(l: real, k: real, w: real, s: real): real
  {
    l * s * s - 2.0 * s * k + w
  }

  /**
   * The squared distance to the point at `s`, as a quadratic in `s` whose
   * coefficients are the squared length, the projection and the squared
   * distance to `a`.
   */
  lemma SquaredDistanceAlong(p: Point, a: Point, b: Point, s: real)
    ensures SquaredDistance(p, PointAlong(a, b, s)) ==
            Quadratic(SquaredDistance(b, a), Projection(p, a, b), SquaredDistance(p, a), s)
  {
    AxisIdentity(p.x, a.x, b.x, s);
    AxisIdentity(p.y, a.y, b.y, s);
    QuadraticSum(Sq(b.x - a.x), Sq(b.y - a.y), (p.x - a.x) * (b.x - a.x), (p.y - a.y) * (b.y - a.y),
                 Sq(p.x - a.x), Sq(p.y - a.y), s);
  }

  /** One coordinate of `SquaredDistanceAlong`. */
  lemma AxisIdentity(p: real, a: real, q: real, s: real)
    ensures Sq(p - (a + s * (q - a))) == s * s * Sq(q - a) - 2.0 * s * ((p - a) * (q - a)) + Sq(p - a)
  {
    SqValue(p - (a + s * (q - a)));
    SqValue(q - a);
    SqValue(p - a);
  }

  /** A quadratic whose coefficients are sums is the sum of the two quadratics. */
  lemma QuadraticSum(l1: real, l2: real, k1: real, k2: real, w1: real, w2: real, s: real)
    ensures Quadratic(l1 + l2, k1 + k2, w1 + w2, s) ==
            (s * s * l1 - 2.0 * s * k1 + w1) + (s * s * l2 - 2.0 * s * k2 + w2)
  {
  }

  /** The quadratic is least on [0, 1] at its vertex `k / l` clamped to [0, 1]. */
  lemma QuadraticLeastAtClamp(l: real, k: real, w: real, s: real)
    requires l > 0.0 && 0.0 <= s <= 1.0
    ensures Quadratic(l, k, w, ClampUnit(k / l)) <= Quadratic(l, k, w, s)
  {
    var t := k / l;
    var c := ClampUnit(t);
    assert k == l * t;
    // The difference of the two values factors as (s - c) * l * (s + c - 2 t).
    var diff := Quadratic(l, k, w, s) - Quadratic(l, k, w, c);
    assert diff == (s - c) * (l * (s + c - 2.0 * t));
    if t < 0.0 {
      assert c == 0.0;
      ProductNonNegative(s, l * (s - 2.0 * t));
    } else if t > 1.0 {
      assert c == 1.0;
      ProductNonNegative(1.0 - s, l * (2.0 * t - s - 1.0));
      assert diff == (1.0 - s) * (l * (2.0 * t - s - 1.0));
    } else {
      assert c == t;
      ProductNonNegative(l, (s - t) * (s - t));
      assert diff == l * ((s - t) * (s - t));
    }
  }

  lemma ProductNonNegative(a: real, b: real)
    requires a >= 0.0 && b >= 0.0
    ensures a * b >= 0.0
  {
  }

  /** No point of the segment is nearer to `p` than the point the distance is measured to. */
  lemma ClosestPointIsNearest(p: Point, a: Point, b: Point, s: real)
    requires !Degenerate(a, b) && 0.0 <= s <= 1.0
    ensures SquaredDistance(p, ClosestPoint(p, a, b)) <= SquaredDistance(p, PointAlong(a, b, s))
  {
    var c := ClampUnit(FootParameter(p, a, b));
    SquaredDistanceAlong(p, a, b, s);
    SquaredDistanceAlong(p, a, b, c);
    QuadraticLeastAtClamp(SquaredDistance(b, a), Projection(p, a, b), SquaredDistance(p, a), s);
  }

  /** The distance to the segment is at most the distance to any of its points. */
  lemma DistanceIsMinimal(sqrt: real -> real, p: Point, a: Point, b: Point, s: real)
    requires IsSqrt(sqrt) && 0.0 <= s <= 1.0
    ensures DistancePointToSegment(sqrt, p, a, b) <= sqrt(SquaredDistance(p, PointAlong(a, b, s)))
  {
    var q := PointAlong(a, b, s);
    if Degenerate(a, b) {
      assert q == a;
    } else {
      ClosestPointIsNearest(p, a, b, s);
      SqrtLess(sqrt, SquaredDistance(p, q), SquaredDistance(p, ClosestPoint(p, a, b)));
    }
  }

  /** `Math.sqrt(dx * dx + dy * dy)` for the line's direction `(x2 - x1, y2 - y1)`. */
  function LineLength(sqrt: real -> real, l: Line): real
  {
    sqrt(SquaredDistance(EndOf(l), StartOf(l)))
  }

  /** A line's length is zero exactly when its two points coincide. */
  lemma ZeroLengthIff(sqrt: real -> real, l: Line)
    requires IsSqrt(sqrt)
    ensures LineLength(sqrt, l) >= 0.0
    ensures LineLength(sqrt, l) == 0.0 <==> Degenerate(StartOf(l), EndOf(l))
  {
    var d := SquaredDistance(EndOf(l), StartOf(l));
    if Degenerate(StartOf(l), EndOf(l)) {
      SqValue(l.x2 - l.x1);
      SqValue(l.y2 - l.y1);
      SqrtUnique(sqrt, d, 0.0);
    } else {
      var s := sqrt(d);
      assert d > 0.0 && s * s == d;
    }
  }

  /**
   * The line stretched from its start to `inches` long: `scale = inches / len`,
   * `x2 = x1 + dx * scale`, `y2 = y1 + dy * scale`.
   */
  function Resized(sqrt: real -> real, l: Line, inches: real): Line
    requires LineLength(sqrt, l) != 0.0
  {
    var scale := inches / LineLength(sqrt, l);
    l.(x2 := l.x1 + (l.x2 - l.x1) * scale, y2 := l.y1 + (l.y2 - l.y1) * scale)
  }

  /**
   * `r` is `l` with only its end moved: the same start and other fields, a
   * direction that is a positive multiple of `l`'s (zero cross product,
   * positive dot product), and length `inches`.
   */
  predicate Rescaled(sqrt: real -> real, r: Line, l: Line, inches: real)
  {
    r.(x2 := l.x2, y2 := l.y2) == l &&
    (r.x2 - r.x1) * (l.y2 - l.y1) - (r.y2 - r.y1) * (l.x2 - l.x1) == 0.0 &&
    (r.x2 - r.x1) * (l.x2 - l.x1) + (r.y2 - r.y1) * (l.y2 - l.y1) > 0.0 &&
    LineLength(sqrt, r) == inches
  }

  /** Resizing a line with a length to a positive length rescales it to exactly that length. */
  lemma ResizedLength(sqrt: real -> real, l: Line, inches: real)
    requires IsSqrt(sqrt) && LineLength(sqrt, l) != 0.0 && inches > 0.0
    ensures Rescaled(sqrt, Resized(sqrt, l, inches), l, inches)
  {
    ResizedParts(sqrt, l, inches);
  }

  lemma ResizedParts(sqrt: real -> real, l: Line, inches: real)
    requires IsSqrt(sqrt) && LineLength(sqrt, l) != 0.0 && inches > 0.0
    ensures var r := Resized(sqrt, l, inches);
            r.(x2 := l.x2, y2 := l.y2) == l &&
            (r.x2 - r.x1) * (l.y2 - l.y1) - (r.y2 - r.y1) * (l.x2 - l.x1) == 0.0 &&
            (r.x2 - r.x1) * (l.x2 - l.x1) + (r.y2 - r.y1) * (l.y2 - l.y1) > 0.0 &&
            LineLength(sqrt, r) == inches
  {
    ZeroLengthIff(sqrt, l);
    var len := LineLength(sqrt, l);
    var dx, dy := l.x2 - l.x1, l.y2 - l.y1;
    var s := inches / len;
    LengthSquared(sqrt, l, len, dx, dy);
    assert s * len == inches;
    var r := Resized(sqrt, l, inches);
    var a, b := r.x2 - r.x1, r.y2 - r.y1;
    assert a == dx * s && b == dy * s;
    ScaledDirection(dx, dy, s, len, inches, a, b);
    LengthOfSides(sqrt, r, a, b, inches);
  }

  /** The squared length of a line is the sum of the squares of its sides. */
  lemma LengthSquared(sqrt: real -> real, l: Line, len: real, dx: real, dy: real)
    requires IsSqrt(sqrt) && len == LineLength(sqrt, l) && dx == l.x2 - l.x1 && dy == l.y2 - l.y1
    ensures len * len == dx * dx + dy * dy
  {
    SqValue(dx);
    SqValue(dy);
  }

  /** A line whose sides `a`, `b` have `a * a + b * b == inches * inches` is `inches` long. */
  lemma LengthOfSides(sqrt: real -> real, r: Line, a: real, b: real, inches: real)
    requires IsSqrt(sqrt) && inches > 0.0 && r.x2 - r.x1 == a && r.y2 - r.y1 == b
    requires a * a + b * b == inches * inches
    ensures LineLength(sqrt, r) == inches
  {
    SqValue(a);
    SqValue(b);
    assert SquaredDistance(EndOf(r), StartOf(r)) == inches * inches;
    SqrtUnique(sqrt, inches * inches, inches);
  }

  /**
   * `(a, b)`, which is `(dx, dy)` scaled by `s = inches / len > 0`, keeps its
   * direction and has squared length `inches * inches`.
   */
  lemma ScaledDirection(dx: real, dy: real, s: real, len: real, inches: real, a: real, b: real)
    requires len > 0.0 && inches > 0.0 && len * len == dx * dx + dy * dy && s * len == inches
    requires a == dx * s && b == dy * s
    ensures a * dy - b * dx == 0.0
    ensures a * dx + b * dy > 0.0
    ensures a * a + b * b == inches * inches
  {
    MulPositive(len, len);
    assert s > 0.0 by {
      if s < 0.0 {
        MulPositive(-s, len);
      }
    }
    MulPositive(s, len * len);
    assert a * dx + b * dy == s * (len * len);
    assert a * a + b * b == (s * s) * (len * len);
    assert (s * s) * (len * len) == (s * len) * (s * len);
  }

  // ------------------------------------------------------------------
  // Ray against segment
  // ------------------------------------------------------------------

  /** The threshold below which the two directions count as parallel. */
  const ParallelEpsilon: real := 0.0000000001

  function Abs(x: real): (r: real)
    ensures r >= 0.0 && (r == x || r == -x)
  {
    if x < 0.0 then -x else x
  }

  /** The cross product of the ray's direction and the segment's direction. */
  function Denominator(r1: Point, r2: Point, s1: Point, s2: Point): real
  {
    (r2.x - r1.x) * (s2.y - s1.y) - (r2.y - r1.y) * (s2.x - s1.x)
  }

  /** The parameters (t along the ray, u along the segment) of the crossing point. */
  function CrossingParameters(r1: Point, r2: Point, s1: Point, s2: Point): (real, real)
    requires Denominator(r1, r2, s1, s2) != 0.0
  {
    var dx, dy := r2.x - r1.x, r2.y - r1.y;
    var dsx, dsy := s2.x - s1.x, s2.y - s1.y;
    var denom := Denominator(r1, r2, s1, s2);
    var t := ((s1.x - r1.x) * dsy - (s1.y - r1.y) * dsx) / denom;
    var u := ((s1.x - r1.x) * dy - (s1.y - r1.y) * dx) / denom;
    (t, u)
  }

  /** `rayIntersectsSegment(rx1, ry1, rx2, ry2, sx1, sy1, sx2, sy2)`. */
  function RayIntersectsSegment(r1: Point, r2: Point, s1: Point, s2: Point): bool
  {
    if Abs(Denominator(r1, r2, s1, s2)) < ParallelEpsilon then false
    else
      var (t, u) := CrossingParameters(r1, r2, s1, s2);
      0.0 <= t <= 1.0 && 0.0 <= u <= 1.0
  }

  /** Nearly parallel directions never report a crossing. */
  lemma NearlyParallelMisses(r1: Point, r2: Point, s1: Point, s2: Point)
    requires Abs(Denominator(r1, r2, s1, s2)) < ParallelEpsilon
    ensures !RayIntersectsSegment(r1, r2, s1, s2)
  {
  }

  /** `t` along `r1 r2` and `u` along `s1 s2` name the same point. */
  predicate Meet(r1: Point, r2: Point, s1: Point, s2: Point, t: real, u: real)
  {
    PointAlong(r1, r2, t) == PointAlong(s1, s2, u)
  }

  lemma CancelNonZero(a: real, b: real, d: real)
    requires d != 0.0 && a * d == b * d
    ensures a == b
  {
    assert (a - b) * d == 0.0;
  }

  lemma QuotientTimes(n: real, d: real)
    requires d != 0.0
    ensures (n / d) * d == n
  {
  }

  /** The crossing parameters name a common point of the two lines. */
  lemma CrossingParametersMeet(r1: Point, r2: Point, s1: Point, s2: Point)
    requires Denominator(r1, r2, s1, s2) != 0.0
    ensures var (t, u) := CrossingParameters(r1, r2, s1, s2); Meet(r1, r2, s1, s2, t, u)
  {
    var dx, dy := r2.x - r1.x, r2.y - r1.y;
    var dsx, dsy := s2.x - s1.x, s2.y - s1.y;
    var ex, ey := s1.x - r1.x, s1.y - r1.y;
    var d := Denominator(r1, r2, s1, s2);
    var (t, u) := CrossingParameters(r1, r2, s1, s2);
    assert t == (ex * dsy - ey * dsx) / d && u == (ex * dy - ey * dx) / d;
    QuotientTimes(ex * dsy - ey * dsx, d);
    QuotientTimes(ex * dy - ey * dx, d);
    SolveAlongX(dx, dy, dsx, dsy, ex, ey, d, t, u);
    SolveAlongY(dx, dy, dsx, dsy, ex, ey, d, t, u);
    SolvedMeet(r1, r2, s1, s2, t, u);
  }

  /** Parameters solving both coordinate equations name a common point. */
  lemma SolvedMeet(r1: Point, r2: Point, s1: Point, s2: Point, t: real, u: real)
    requires t * (r2.x - r1.x) - u * (s2.x - s1.x) == s1.x - r1.x
    requires t * (r2.y - r1.y) - u * (s2.y - s1.y) == s1.y - r1.y
    ensures Meet(r1, r2, s1, s2, t, u)
  {
    var a, b := t * (r2.x - r1.x), u * (s2.x - s1.x);
    var c, e := t * (r2.y - r1.y), u * (s2.y - s1.y);
    assert r1.x + a == s1.x + b && r1.y + c == s1.y + e;
    assert PointAlong(r1, r2, t) == Point(r1.x + a, r1.y + c);
    assert PointAlong(s1, s2, u) == Point(s1.x + b, s1.y + e);
  }

  /** The first coordinate of the crossing equations, solved by Cramer's rule. */
  lemma SolveAlongX(dx: real, dy: real, dsx: real, dsy: real, ex: real, ey: real, d: real, t: real, u: real)
    requires d == dx * dsy - dy * dsx && d != 0.0
    requires t * d == ex * dsy - ey * dsx && u * d == ex * dy - ey * dx
    ensures t * dx - u * dsx == ex
  {
    assert (t * dx - u * dsx) * d == dx * (t * d) - dsx * (u * d);
    assert dx * (ex * dsy - ey * dsx) - dsx * (ex * dy - ey * dx) == ex * d;
    CancelNonZero(t * dx - u * dsx, ex, d);
  }

  /** The second coordinate of the crossing equations, solved by Cramer's rule. */
  lemma SolveAlongY(dx: real, dy: real, dsx: real, dsy: real, ex: real, ey: real, d: real, t: real, u: real)
    requires d == dx * dsy - dy * dsx && d != 0.0
    requires t * d == ex * dsy - ey * dsx && u * d == ex * dy - ey * dx
    ensures t * dy - u * dsy == ey
  {
    assert (t * dy - u * dsy) * d == dy * (t * d) - dsy * (u * d);
    assert dy * (ex * dsy - ey * dsx) - dsy * (ex * dy - ey * dx) == ey * d;
    CancelNonZero(t * dy - u * dsy, ey, d);
  }

  /** Any common point of the two lines has the crossing parameters. */
  lemma MeetHasCrossingParameters(r1: Point, r2: Point, s1: Point, s2: Point, t: real, u: real)
    requires Denominator(r1, r2, s1, s2) != 0.0 && Meet(r1, r2, s1, s2, t, u)
    ensures CrossingParameters(r1, r2, s1, s2) == (t, u)
  {
    var dx, dy := r2.x - r1.x, r2.y - r1.y;
    var dsx, dsy := s2.x - s1.x, s2.y - s1.y;
    var ex, ey := s1.x - r1.x, s1.y - r1.y;
    var d := Denominator(r1, r2, s1, s2);
    var (t0, u0) := CrossingParameters(r1, r2, s1, s2);
    assert t * dx - u * dsx == ex && t * dy - u * dsy == ey;
    assert (t * dx - u * dsx) * dsy - (t * dy - u * dsy) * dsx == t * d;
    assert (t * dx - u * dsx) * dy - (t * dy - u * dsy) * dx == u * d;
    QuotientTimes(ex * dsy - ey * dsx, d);
    QuotientTimes(ex * dy - ey * dx, d);
    CancelNonZero(t0, t, d);
    CancelNonZero(u0, u, d);
  }

  /** A reported crossing is a point within both the ray's span and the segment. */
  lemma IntersectionMeets(r1: Point, r2: Point, s1: Point, s2: Point)
    requires RayIntersectsSegment(r1, r2, s1, s2)
    ensures Abs(Denominator(r1, r2, s1, s2)) >= ParallelEpsilon
    ensures var (t, u) := CrossingParameters(r1, r2, s1, s2);
            0.0 <= t <= 1.0 && 0.0 <= u <= 1.0 && Meet(r1, r2, s1, s2, t, u)
  {
    CrossingParametersMeet(r1, r2, s1, s2);
  }

  /** Unless the directions are nearly parallel, a common point within both spans is reported. */
  lemma MeetingIsReported(r1: Point, r2: Point, s1: Point, s2: Point, t: real, u: real)
    requires Abs(Denominator(r1, r2, s1, s2)) >= ParallelEpsilon
    requires 0.0 <= t <= 1.0 && 0.0 <= u <= 1.0 && Meet(r1, r2, s1, s2, t, u)
    ensures RayIntersectsSegment(r1, r2, s1, s2)
  {
    MeetHasCrossingParameters(r1, r2, s1, s2, t, u);
  }
}
