/**
 * The floor plan's data: a line record (wall, door or window) and the plane
 * geometry shared by the renderers and the mouse handling.
 */
module Plan {
  import opened Wrappers

  /** What a line stands for; a line with no kind is a wall (see Utils.LineKind). */
  datatype Kind = Wall | Door | Window

  /**
   * A line of the plan, in world inches. `kind`, `heightInches` and
   * `baseOffsetInches` may be missing; `facingFlipped` reverses the side a
   * wall's thickness is drawn on.
   */
  datatype Line = Line(
    id: int,
    kind: Option<Kind>,
    heightInches: Option<real>,
    baseOffsetInches: Option<real>,
    x1: real, y1: real, x2: real, y2: real,
    facingFlipped: bool)

  datatype Point = Point(x: real, y: real)

  /** The line's first point `(x1, y1)`. */
  function StartOf(l: Line): Point
  {
    Point(l.x1, l.y1)
  }

  /** The line's second point `(x2, y2)`. */
  function EndOf(l: Line): Point
  {
    Point(l.x2, l.y2)
  }

  /** `((x1 + x2) / 2, (y1 + y2) / 2)`. */
  function Midpoint(l: Line): Point
  {
    Point((l.x1 + l.x2) / 2.0, (l.y1 + l.y2) / 2.0)
  }

  /**
   * `sqrt` behaves as `Math.sqrt` on non-negative reals. Members that take a
   * square root receive it as a parameter and require this of it.
   */
  ghost predicate IsSqrt(sqrt: real -> real)
  {
    forall x: real :: 0.0 <= x ==> 0.0 <= sqrt(x) && sqrt(x) * sqrt(x) == x
  }

  /** A square root is determined by its square: equal squares give equal roots. */
  lemma SqrtUnique(sqrt: real -> real, x: real, r: real)
    requires IsSqrt(sqrt) && 0.0 <= x && 0.0 <= r && r * r == x
    ensures sqrt(x) == r
  {
    var s := sqrt(x);
    assert 0.0 <= s && s * s == x;
    if s < r {
      MulStrict(s, r);
    } else if s > r {
      MulStrict(r, s);
    }
  }

  lemma MulPositive(d: real, e: real)
    requires d > 0.0 && e > 0.0
    ensures d * e > 0.0
  {
  }

  lemma MulStrict(a: real, b: real)
    requires 0.0 <= a < b
    ensures a * a < b * b
  {
    MulPositive(b - a, b + a);
  }

  /** `sqrt` is monotonic: comparing roots is comparing squares. */
  lemma SqrtLess(sqrt: real -> real, x: real, y: real)
    requires IsSqrt(sqrt) && 0.0 <= x && 0.0 <= y
    ensures sqrt(x) < sqrt(y) <==> x < y
  {
    var a, b := sqrt(x), sqrt(y);
    assert 0.0 <= a && a * a == x && 0.0 <= b && b * b == y;
    if a < b {
      MulStrict(a, b);
    } else if b < a {
      MulStrict(b, a);
    }
  }

  /** `sqrt(x) <= c` exactly when `x <= c * c`, for a non-negative bound `c`. */
  lemma SqrtAtMost(sqrt: real -> real, x: real, c: real)
    requires IsSqrt(sqrt) && 0.0 <= x && 0.0 <= c
    ensures sqrt(x) <= c <==> x <= c * c
  {
    SqrtUnique(sqrt, c * c, c);
    SqrtLess(sqrt, c * c, x);
  }

  /** `sqrt(x) < c` exactly when `x < c * c`, for a non-negative bound `c`. */
  lemma SqrtBelow(sqrt: real -> real, x: real, c: real)
    requires IsSqrt(sqrt) && 0.0 <= x && 0.0 <= c
    ensures sqrt(x) < c <==> x < c * c
  {
    SqrtUnique(sqrt, c * c, c);
    SqrtLess(sqrt, x, c * c);
  }
}
