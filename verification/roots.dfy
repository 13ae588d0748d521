/**
 * The arithmetic the sphere, cone and cylinder share: solving the quadratic
 * in the ray parameter and choosing which of its two roots is the hit.
 */
module Roots {
  import opened Results
  import opened JavaMath

  /** `t` is a zero of `a t² + b t + c`. */
  predicate IsRoot(a: real, b: real, c: real, t: real) {
    Quadratic(a, b, c, t) == 0.0
  }

  /** `Math.pow(b, 2) - 4 * a * c`. */
  function Discriminant(a: real, b: real, c: real): real {
    Square(b) - 4.0 * a * c
  }

  /**
   * What the quadratic formula yields. `Degenerate` is a zero leading
   * coefficient, where Java divides by zero; its infinite or NaN parameters
   * are never the closest hit, so every shape treats it as a miss.
   */
  datatype Solutions = NoRealRoots | Degenerate | TwoRoots(first: real, second: real)

  /** `(-b - sqrt(disc)) / (2a)` and `(-b + sqrt(disc)) / (2a)`, unless the discriminant is negative. */
  function Solve(m: MathLib, a: real, b: real, c: real): (q: Solutions)
    ensures q.NoRealRoots? <==> Discriminant(a, b, c) < 0.0
    ensures q.Degenerate? <==> Discriminant(a, b, c) >= 0.0 && a == 0.0
  {
    var disc := Discriminant(a, b, c);
    if disc < 0.0 then NoRealRoots
    else if a == 0.0 then Degenerate
    else TwoRoots((-b - m.sqrt(disc)) / (2.0 * a), (-b + m.sqrt(disc)) / (2.0 * a))
  }

  /** Both roots the formula gives do solve the quadratic, and their order follows the sign of `a`. */
  lemma SolveRoots(m: MathLib, a: real, b: real, c: real)
    requires SqrtLaws(m)
    ensures Solve(m, a, b, c).TwoRoots? ==>
      && IsRoot(a, b, c, Solve(m, a, b, c).first)
      && IsRoot(a, b, c, Solve(m, a, b, c).second)
    ensures Solve(m, a, b, c).TwoRoots? && a > 0.0 ==> Solve(m, a, b, c).first <= Solve(m, a, b, c).second
    ensures Solve(m, a, b, c).TwoRoots? && a < 0.0 ==> Solve(m, a, b, c).first >= Solve(m, a, b, c).second
  {
    var q := Solve(m, a, b, c);
    if q.TwoRoots? {
      var disc := Discriminant(a, b, c);
      var s := m.sqrt(disc);
      assert s >= 0.0 && s * s == b * b - 4.0 * a * c;
      RootSolves(a, b, c, s, -b - s, q.first);
      RootSolves(a, b, c, s, -b + s, q.second);
      RootOrder(a, -b - s, -b + s, q.first, q.second);
    }
  }

  /** A root written as `u / (2a)` solves the quadratic when `u + b` squares to the discriminant. */
  lemma RootSolves(a: real, b: real, c: real, s: real, u: real, t: real)
    requires a != 0.0
    requires s * s == b * b - 4.0 * a * c
    requires u == -b - s || u == -b + s
    requires t == u / (2.0 * a)
    ensures IsRoot(a, b, c, t)
  {
    assert u == 2.0 * a * t;
    assert (u + b) * (u + b) == s * s;
    calc {
      4.0 * a * (a * t * t + b * t + c);
      u * u + 2.0 * b * u + 4.0 * a * c;
      (u + b) * (u + b) - b * b + 4.0 * a * c;
      0.0;
    }
    ProductZero(4.0 * a, a * t * t + b * t + c);
  }

  lemma ProductZero(x: real, y: real)
    requires x != 0.0 && x * y == 0.0
    ensures y == 0.0
  {
  }

  lemma RootOrder(a: real, u: real, v: real, t1: real, t2: real)
    requires a != 0.0 && u <= v
    requires t1 == u / (2.0 * a) && t2 == v / (2.0 * a)
    ensures a > 0.0 ==> t1 <= t2
    ensures a < 0.0 ==> t1 >= t2
  {
  }

  /** The formula finds every solution: a quadratic with `a != 0` that vanishes at `t` has real roots, one of which is `t`. */
  lemma SolveIsComplete(m: MathLib, a: real, b: real, c: real, t: real)
    requires SqrtLaws(m) && a != 0.0
    requires IsRoot(a, b, c, t)
    ensures Solve(m, a, b, c).TwoRoots?
    ensures t == Solve(m, a, b, c).first || t == Solve(m, a, b, c).second
  {
    var w := 2.0 * a * t + b;
    calc {
      w * w;
      4.0 * a * (a * t * t + b * t + c) + (b * b - 4.0 * a * c);
      b * b - 4.0 * a * c;
    }
    var disc := Discriminant(a, b, c);
    assert disc == w * w;
    SquareNonNegative(w);
    var s := m.sqrt(disc);
    assert s >= 0.0 && s * s == w * w;
    SameSquare(s, w);
    var q := Solve(m, a, b, c);
    if w == -s {
      assert -b - s == 2.0 * a * t;
      HalfQuotient(a, -b - s, t);
      assert q.first == t;
    } else {
      assert -b + s == 2.0 * a * t;
      HalfQuotient(a, -b + s, t);
      assert q.second == t;
    }
  }

  lemma SquareNonNegative(w: real)
    ensures w * w >= 0.0
  {
    if w < 0.0 {
      assert w * w == (-w) * (-w);
    }
  }

  lemma SameSquare(s: real, w: real)
    requires s >= 0.0 && s * s == w * w
    ensures w == s || w == -s
  {
    assert (w - s) * (w + s) == 0.0;
    if w - s != 0.0 {
      ProductZero(w - s, w + s);
    }
  }

  lemma HalfQuotient(a: real, u: real, t: real)
    requires a != 0.0 && u == 2.0 * a * t
    ensures u / (2.0 * a) == t
  {
  }

  /** A quadratic with a negative discriminant has no real solution at all. */
  lemma NegativeDiscriminantNoSolution(a: real, b: real, c: real, t: real)
    requires Discriminant(a, b, c) < 0.0
    ensures !IsRoot(a, b, c, t)
  {
    if a * t * t + b * t + c == 0.0 {
      var w := 2.0 * a * t + b;
      calc {
        w * w;
        4.0 * a * (a * t * t + b * t + c) + (b * b - 4.0 * a * c);
        b * b - 4.0 * a * c;
      }
      SquareNonNegative(w);
      assert false;
    }
  }

  // ---------------------------------------------------------------------------
  // Choosing the root
  // ---------------------------------------------------------------------------

  /** A root the shape can report: on the ray, and not rejected by the shape's own filter. */
  predicate Admissible(t: real, rejected: bool) {
    t >= 0.0 && !rejected
  }

  /**
   * The declarative meaning of every shape's root choice: a miss exactly when
   * neither root is admissible, and otherwise an admissible root no larger
   * than any admissible root.
   */
  predicate SmallestAdmissible(t1: real, rejected1: bool, t2: real, rejected2: bool, r: Option<real>) {
    && (r.None? <==> !Admissible(t1, rejected1) && !Admissible(t2, rejected2))
    && (r.Some? ==>
      && ((r.value == t1 && Admissible(t1, rejected1)) || (r.value == t2 && Admissible(t2, rejected2)))
      && (Admissible(t1, rejected1) ==> r.value <= t1)
      && (Admissible(t2, rejected2) ==> r.value <= t2))
  }

  /** The smallest admissible root is determined by the two roots and their filters. */
  lemma SmallestAdmissibleUnique(t1: real, rejected1: bool, t2: real, rejected2: bool, r: Option<real>, s: Option<real>)
    requires SmallestAdmissible(t1, rejected1, t2, rejected2, r)
    requires SmallestAdmissible(t1, rejected1, t2, rejected2, s)
    ensures r == s
  {
  }

  /**
   * The cone's and the cylinder's case analysis over the two roots and the
   * two "shadow" flags of their filters, branch for branch: first the four
   * miss conditions, then a root whose partner is in the shadow, then the
   * smaller non-negative root, then the non-negative one of a pair of mixed sign.
   */
  function ChooseRoot(t1: real, t2: real, shadow1: bool, shadow2: bool): (r: Option<real>)
    ensures SmallestAdmissible(t1, shadow1, t2, shadow2, r)
  {
    if (t1 < 0.0 && t2 < 0.0) || (shadow1 && shadow2) || (shadow1 && t2 < 0.0) || (shadow2 && t1 < 0.0) then None
    else if shadow1 && t2 >= 0.0 then Some(t2)
    else if shadow2 && t1 >= 0.0 then Some(t1)
    else if t1 >= 0.0 && t1 <= t2 then Some(t1)
    else if t2 >= 0.0 && t2 <= t1 then Some(t2)
    else if t1 > t2 then Some(t1)
    else Some(t2)
  }

  /** The sphere's case analysis, which has no filter: a miss when both roots are negative, else the smaller non-negative one. */
  function ChooseNearerRoot(t1: real, t2: real): (r: Option<real>)
    ensures SmallestAdmissible(t1, false, t2, false, r)
  {
    if t1 < 0.0 && t2 < 0.0 then None
    else if t1 >= 0.0 && t1 <= t2 then Some(t1)
    else if t2 >= 0.0 && t2 <= t1 then Some(t2)
    else if t1 > t2 then Some(t1)
    else Some(t2)
  }

  /** The sphere's choice is the filtered choice with a filter that rejects nothing. */
  lemma NearerRootIsUnfilteredChoice(t1: real, t2: real)
    ensures ChooseNearerRoot(t1, t2) == ChooseRoot(t1, t2, false, false)
  {
    SmallestAdmissibleUnique(t1, false, t2, false, ChooseNearerRoot(t1, t2), ChooseRoot(t1, t2, false, false));
  }

  /** When the leading coefficient is positive the first root is the nearer, so a non-negative first root is always chosen. */
  lemma PositiveLeadingFirstRoot(m: MathLib, a: real, b: real, c: real)
    requires SqrtLaws(m) && a > 0.0
    requires Solve(m, a, b, c).TwoRoots? && Solve(m, a, b, c).first >= 0.0
    ensures ChooseNearerRoot(Solve(m, a, b, c).first, Solve(m, a, b, c).second) == Some(Solve(m, a, b, c).first)
  {
    SolveRoots(m, a, b, c);
  }

  /**
   * The filtered choice over the formula's roots, which is what the cone and
   * the cylinder compute; `Degenerate` and `NoRealRoots` are misses.
   */
  function FirstSolution(m: MathLib, a: real, b: real, c: real, rejected: real -> bool): Option<real> {
    match Solve(m, a, b, c)
    case TwoRoots(t1, t2) => ChooseRoot(t1, t2, rejected(t1), rejected(t2))
    case _ => None
  }

  /**
   * The choice means what it should along the whole ray: what it returns is a
   * solution the filter keeps, at a non-negative parameter, and it is at or
   * before every other such solution; it misses only when there is none.
   */
  lemma {:induction false} FirstSolutionIsEarliest(m: MathLib, a: real, b: real, c: real, rejected: real -> bool, t: real)
    requires SqrtLaws(m) && a != 0.0
    ensures FirstSolution(m, a, b, c, rejected).Some? ==>
      var r := FirstSolution(m, a, b, c, rejected).value;
      IsRoot(a, b, c, r) && Admissible(r, rejected(r))
    ensures IsRoot(a, b, c, t) && Admissible(t, rejected(t)) ==>
      FirstSolution(m, a, b, c, rejected).Some? && FirstSolution(m, a, b, c, rejected).value <= t
  {
    SolveRoots(m, a, b, c);
    if IsRoot(a, b, c, t) {
      SolveIsComplete(m, a, b, c, t);
    }
  }

  /**
   * The same, for a quadratic whose zeros are exactly the ray parameters of
   * the points on some surface: the choice is the first point of the surface
   * that the filter keeps on the ray's forward half.
   */
  lemma FirstSolutionOnSurface(m: MathLib, a: real, b: real, c: real, rejected: real -> bool, onSurface: real -> bool, t: real)
    requires SqrtLaws(m) && a != 0.0
    requires forall s :: onSurface(s) <==> IsRoot(a, b, c, s)
    ensures FirstSolution(m, a, b, c, rejected).Some? ==>
      var r := FirstSolution(m, a, b, c, rejected).value;
      onSurface(r) && Admissible(r, rejected(r))
    ensures onSurface(t) && Admissible(t, rejected(t)) ==>
      FirstSolution(m, a, b, c, rejected).Some? && FirstSolution(m, a, b, c, rejected).value <= t
  {
    FirstSolutionIsEarliest(m, a, b, c, rejected, t);
  }

  /** The sphere's choice over the formula's roots, with no filter. */
  function NearerSolution(m: MathLib, a: real, b: real, c: real): Option<real> {
    match Solve(m, a, b, c)
    case TwoRoots(t1, t2) => ChooseNearerRoot(t1, t2)
    case _ => None
  }

  /** The unfiltered choice is the earliest non-negative solution, and misses only when there is none. */
  lemma NearerSolutionIsEarliest(m: MathLib, a: real, b: real, c: real, t: real)
    requires SqrtLaws(m) && a != 0.0
    ensures NearerSolution(m, a, b, c).Some? ==>
      var r := NearerSolution(m, a, b, c).value;
      IsRoot(a, b, c, r) && r >= 0.0
    ensures IsRoot(a, b, c, t) && t >= 0.0 ==>
      NearerSolution(m, a, b, c).Some? && NearerSolution(m, a, b, c).value <= t
  {
    var never: real -> bool := _ => false;
    FirstSolutionIsEarliest(m, a, b, c, never, t);
    match Solve(m, a, b, c)
    case TwoRoots(t1, t2) =>
      NearerRootIsUnfilteredChoice(t1, t2);
    case _ =>
  }
}

/** The directions the cone and the cylinder measure from: a start vector across the axis, and the part of a vector across the axis. */
module Axes {
  import opened JavaMath
  import opened Vectors

  /**
   * `createAngleStartVector`: a unit axis vector when the axis has a zero
   * component, and otherwise `(1, 0, -x/z)` normalised.
   */
  function AngleStart(m: MathLib, axis: Vec3): (r: Vec3)
    ensures Dot(r, axis) == 0.0
  {
    if axis.x == 0.0 then Vec3(1.0, 0.0, 0.0)
    else if axis.y == 0.0 then Vec3(0.0, 1.0, 0.0)
    else if axis.z == 0.0 then Vec3(0.0, 0.0, 1.0)
    else
      var v := Vec3(1.0, 0.0, (-axis.x) / axis.z);
      NormalisedOrthogonal(m, v, axis);
      Normalised(m, v)
  }

  /** The start vector always has unit length. */
  lemma AngleStartUnit(m: MathLib, axis: Vec3)
    requires SqrtLaws(m)
    ensures NormSq(AngleStart(m, axis)) == 1.0
  {
    if axis.x != 0.0 && axis.y != 0.0 && axis.z != 0.0 {
      var v := Vec3(1.0, 0.0, (-axis.x) / axis.z);
      assert v.x != 0.0;
      NormalisedUnit(m, v);
    }
  }

  /** `r - (r·n) n`, the part of `r` across the axis `n`. */
  function Across(r: Vec3, n: Vec3): Vec3 {
    Sub(r, Scale(n, Dot(r, n)))
  }

  /** Across a unit axis means orthogonal to it, and the axial and across parts add back to `r`. */
  lemma AcrossOrthogonal(r: Vec3, n: Vec3)
    requires NormSq(n) == 1.0
    ensures Dot(Across(r, n), n) == 0.0
    ensures Add(Across(r, n), Scale(n, Dot(r, n))) == r
  {
    var k := Dot(r, n);
    assert Dot(Scale(n, k), n) == k * NormSq(n);
  }
}
