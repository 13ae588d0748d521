/**
 * The transcendental part of `java.lang.Math` that the ray tracer calls, as
 * uninterpreted functions. Each proof assumes only the law it names.
 */
module JavaMath {

  /** `Math.sqrt`, `Math.pow`, `Math.sin`, `Math.cos`, `Math.tan`, `Math.acos` and `Math.PI`. */
  datatype MathLib = MathLib(
    sqrt: real -> real,
    pow: (real, real) -> real,
    sin: real -> real,
    cos: real -> real,
    tan: real -> real,
    acos: real -> real,
    pi: real)

  /** The square root of a non-negative number is a non-negative number whose square it is. */
  ghost predicate SqrtLaws(m: MathLib) {
    forall x :: x >= 0.0 ==> m.sqrt(x) >= 0.0 && m.sqrt(x) * m.sqrt(x) == x
  }

  /** Sine and cosine of the same angle lie on the unit circle. */
  ghost predicate TrigLaws(m: MathLib) {
    forall x :: m.sin(x) * m.sin(x) + m.cos(x) * m.cos(x) == 1.0
  }

  /** `Math.acos` returns an angle in [0, pi], and pi is positive. */
  ghost predicate AcosLaws(m: MathLib) {
    && m.pi > 0.0
    && forall x :: 0.0 <= m.acos(x) <= m.pi
  }

  /** An angle in degrees times `(2 * Math.PI) / 360`, as the camera and the cone convert it. */
  function Radians(m: MathLib, degrees: real): real {
    degrees * ((2.0 * m.pi) / 360.0)
  }

  /** `Math.pow(x, 2)` read as the exact square. */
  function Square(x: real): real {
    x * x
  }

  /** `a t² + b t + c`. */
  function Quadratic(a: real, b: real, c: real, t: real): real {
    a * t * t + b * t + c
  }

  /** `Math.pow(x, 5)` read as the exact fifth power. */
  function Pow5(x: real): real {
    x * x * x * x * x
  }

  /** A square root that keeps the argument's order: what the magnitude comparisons need. */
  lemma SqrtMonotone(m: MathLib, x: real, y: real)
    requires SqrtLaws(m)
    requires 0.0 <= x && 0.0 <= y
    ensures x <= y <==> m.sqrt(x) <= m.sqrt(y)
    ensures x < y <==> m.sqrt(x) < m.sqrt(y)
  {
    var a, b := m.sqrt(x), m.sqrt(y);
    assert a >= 0.0 && a * a == x;
    assert b >= 0.0 && b * b == y;
    if a < b {
      SquareLess(a, b);
    } else if b < a {
      SquareLess(b, a);
    }
  }

  /** Comparing a square root with a non-negative bound is comparing the radicand with the bound's square. */
  lemma SqrtCompare(m: MathLib, x: real, r: real)
    requires SqrtLaws(m)
    requires 0.0 <= x && 0.0 <= r
    ensures m.sqrt(x) <= r <==> x <= r * r
    ensures m.sqrt(x) < r <==> x < r * r
  {
    var a := m.sqrt(x);
    assert a >= 0.0 && a * a == x;
    if a < r {
      SquareLess(a, r);
    } else if r < a {
      SquareLess(r, a);
    }
  }

  lemma SquareLess(a: real, b: real)
    requires 0.0 <= a < b
    ensures a * a < b * b
  {
    var d := b - a;
    assert b * b == a * a + d * (a + b);
    assert d * (a + b) > 0.0;
  }

  /** A product of two fractions is a fraction. */
  lemma UnitProduct(a: real, b: real)
    requires 0.0 <= a <= 1.0 && 0.0 <= b <= 1.0
    ensures 0.0 <= a * b <= 1.0
  {
    NonNegativeProduct(a, b);
    NonNegativeProduct(1.0 - a, b);
    assert (1.0 - a) * b == b - a * b;
  }

  lemma NonNegativeProduct(a: real, b: real)
    requires 0.0 <= a && 0.0 <= b
    ensures 0.0 <= a * b
  {
    if a > 0.0 && b > 0.0 {
      assert a * b > 0.0;
    }
  }
}
