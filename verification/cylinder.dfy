/**
 * A finite open cylinder: the points at distance `radius` from the axis line
 * through `point`, between axial heights 0 and `length`. Its intersection with
 * a ray, its surface normal and its texture lookup.
 */
module Cylinders {
  import opened Results
  import opened JavaMath
  import opened JavaInt
  import opened Vectors
  import opened Colours
  import opened Rays
  import opened Roots
  import opened Axes
  import opened Texels
  import opened RaycastHit

  const DefaultLength: real := 1.0
  const DefaultRadius: real := 1.0

  /** The cylinder's geometry, its start vector for texture angles, and its texture map if it was given one. */
  datatype Cylinder = Cylinder(point: Vec3, axis: Vec3, length: real, radius: real, angleStart: Vec3, textureMap: Option<Grid<Colour>>)

  /** Both constructors: the start vector is derived from the axis. */
  function NewCylinder(m: MathLib, point: Vec3, axis: Vec3, length: real, radius: real, textureMap: Option<Grid<Colour>>): (y: Cylinder)
    ensures y.point == point && y.axis == axis && y.length == length && y.radius == radius
    ensures y.textureMap == textureMap
    ensures Dot(y.angleStart, axis) == 0.0
  {
    Cylinder(point, axis, length, radius, AngleStart(m, axis), textureMap)
  }

  // ---------------------------------------------------------------------------
  // Intersection
  // ---------------------------------------------------------------------------

  /** `a = (V×D)·(V×D)`. */
  function CoefficientA(y: Cylinder, ray: Ray): real {
    Dot(Cross(y.axis, ray.direction), Cross(y.axis, ray.direction))
  }

  /** `b = -2 (V×D)·(V×OC)` with `OC = C - O`. */
  function CoefficientB(y: Cylinder, ray: Ray): real {
    -2.0 * Dot(Cross(y.axis, ray.direction), Cross(y.axis, Sub(y.point, ray.origin)))
  }

  /** `c = (V×OC)·(V×OC) - r²`. */
  function CoefficientC(y: Cylinder, ray: Ray): real {
    Dot(Cross(y.axis, Sub(y.point, ray.origin)), Cross(y.axis, Sub(y.point, ray.origin))) - Square(y.radius)
  }

  /** On the infinite cylinder: the offset from the axis point, crossed with the axis, has the radius's length. */
  predicate OnInfiniteCylinder(y: Cylinder, p: Vec3) {
    NormSq(Cross(y.axis, Sub(p, y.point))) == y.radius * y.radius
  }

  /** The cross product with the axis is linear, so along the ray it is `t (V×D) - V×OC`. */
  lemma CrossAlongRay(y: Cylinder, ray: Ray, t: real)
    ensures Cross(y.axis, Sub(EvaluateAt(ray, t), y.point))
         == Sub(Scale(Cross(y.axis, ray.direction), t), Cross(y.axis, Sub(y.point, ray.origin)))
  {
    assert Sub(EvaluateAt(ray, t), y.point) == Sub(Scale(ray.direction, t), Sub(y.point, ray.origin));
    CrossAffine(y.axis, ray.direction, Sub(y.point, ray.origin), t);
  }

  lemma CrossAffine(v: Vec3, d: Vec3, e: Vec3, t: real)
    ensures Cross(v, Sub(Scale(d, t), e)) == Sub(Scale(Cross(v, d), t), Cross(v, e))
  {
    CrossSub(v, Scale(d, t), e);
    CrossScale(v, d, t);
  }

  lemma CrossSub(v: Vec3, a: Vec3, b: Vec3)
    ensures Cross(v, Sub(a, b)) == Sub(Cross(v, a), Cross(v, b))
  {
  }

  lemma CrossScale(v: Vec3, d: Vec3, t: real)
    ensures Cross(v, Scale(d, t)) == Scale(Cross(v, d), t)
  {
    var l, r := Cross(v, Scale(d, t)), Scale(Cross(v, d), t);
    assert l.x == r.x by { ScaleDifference(t, v.y, d.z, v.z, d.y); }
    assert l.y == r.y by { ScaleDifference(t, v.z, d.x, v.x, d.z); }
    assert l.z == r.z by { ScaleDifference(t, v.x, d.y, v.y, d.x); }
  }

  lemma ScaleDifference(t: real, a: real, b: real, c: real, d: real)
    ensures a * (t * b) - c * (t * d) == t * (a * b - c * d)
  {
  }

  /** The coefficients are those of `|V × (O + tD - C)|² - r²`, whatever the length of the axis or the direction. */
  lemma CoefficientsDescribeCylinder(y: Cylinder, ray: Ray, t: real)
    ensures Quadratic(CoefficientA(y, ray), CoefficientB(y, ray), CoefficientC(y, ray), t)
         == NormSq(Cross(y.axis, Sub(EvaluateAt(ray, t), y.point))) - y.radius * y.radius
  {
    var u, w := Cross(y.axis, ray.direction), Cross(y.axis, Sub(y.point, ray.origin));
    CrossAlongRay(y, ray, t);
    NormSqAffine(u, w, t);
    SameQuadratic(CoefficientA(y, ray), CoefficientB(y, ray), CoefficientC(y, ray), Dot(u, u), Dot(u, w), Dot(w, w), y.radius, t,
                  NormSq(Cross(y.axis, Sub(EvaluateAt(ray, t), y.point))));
  }

  lemma SameQuadratic(a: real, b: real, c: real, uu: real, uw: real, ww: real, r: real, t: real, n: real)
    requires a == uu && b == -2.0 * uw && c == ww - Square(r)
    requires n == uu * t * t - 2.0 * uw * t + ww
    ensures Quadratic(a, b, c, t) == n - r * r
  {
  }

  lemma NormSqAffine(u: Vec3, w: Vec3, t: real)
    ensures NormSq(Sub(Scale(u, t), w)) == Dot(u, u) * t * t - 2.0 * Dot(u, w) * t + Dot(w, w)
  {
    SquareOfDifference(u.x, w.x, t);
    SquareOfDifference(u.y, w.y, t);
    SquareOfDifference(u.z, w.z, t);
  }

  lemma SquareOfDifference(u: real, w: real, t: real)
    ensures (t * u - w) * (t * u - w) == u * u * t * t - 2.0 * (u * w) * t + w * w
  {
  }

  /** The parameters at which the quadratic vanishes are the parameters of points on the infinite cylinder. */
  lemma RootOnCylinder(y: Cylinder, ray: Ray, t: real)
    ensures IsRoot(CoefficientA(y, ray), CoefficientB(y, ray), CoefficientC(y, ray), t)
        <==> OnInfiniteCylinder(y, EvaluateAt(ray, t))
  {
    CoefficientsDescribeCylinder(y, ray, t);
  }

  /** The axial height of a point: its offset from the axis point, projected on the axis. */
  function AxialHeight(y: Cylinder, p: Vec3): real {
    Dot(Sub(p, y.point), y.axis)
  }

  /** `checkShadowIntersection`: the point at `t` is at or below height 0, or at or above the length. */
  predicate OutsideLength(y: Cylinder, ray: Ray, t: real) {
    var h := AxialHeight(y, EvaluateAt(ray, t));
    h <= 0.0 || h >= y.length
  }

  /** The length clip as the filter the root choice applies. */
  function OutsideFilter(y: Cylinder, ray: Ray): real -> bool {
    t => OutsideLength(y, ray, t)
  }

  /** The root the case analysis picks among the two roots and their flags. */
  function ChosenRoot(m: MathLib, y: Cylinder, ray: Ray): Option<real> {
    FirstSolution(m, CoefficientA(y, ray), CoefficientB(y, ray), CoefficientC(y, ray), OutsideFilter(y, ray))
  }

  /**
   * The chosen root is the first point of the finite cylinder along the ray:
   * on the infinite cylinder, ahead of the origin and strictly between the
   * end heights, and no such point comes before it or is missed.
   */
  lemma ChosenRootIsFirstCylinderPoint(m: MathLib, y: Cylinder, ray: Ray, t: real)
    requires SqrtLaws(m) && CoefficientA(y, ray) != 0.0
    ensures ChosenRoot(m, y, ray).Some? ==>
      var r := ChosenRoot(m, y, ray).value;
      r >= 0.0 && 0.0 < AxialHeight(y, EvaluateAt(ray, r)) < y.length && OnInfiniteCylinder(y, EvaluateAt(ray, r))
    ensures t >= 0.0 && 0.0 < AxialHeight(y, EvaluateAt(ray, t)) < y.length && OnInfiniteCylinder(y, EvaluateAt(ray, t)) ==>
      ChosenRoot(m, y, ray).Some? && ChosenRoot(m, y, ray).value <= t
  {
    forall s
      ensures OnInfiniteCylinder(y, EvaluateAt(ray, s)) <==> IsRoot(CoefficientA(y, ray), CoefficientB(y, ray), CoefficientC(y, ray), s)
    {
      RootOnCylinder(y, ray, s);
    }
    FirstSolutionOnSurface(m, CoefficientA(y, ray), CoefficientB(y, ray), CoefficientC(y, ray),
                           OutsideFilter(y, ray), s => OnInfiniteCylinder(y, EvaluateAt(ray, s)), t);
  }

  /** `getNormalAt`: the offset from the axis point with its axial part removed, normalised. */
  function NormalAt(m: MathLib, y: Cylinder, p: Vec3): (n: Vec3)
    ensures NormSq(y.axis) == 1.0 ==> Dot(n, y.axis) == 0.0
  {
    var a := Across(Sub(p, y.point), y.axis);
    if NormSq(y.axis) == 1.0 then
      AcrossOrthogonal(Sub(p, y.point), y.axis);
      NormalisedOrthogonal(m, a, y.axis);
      Normalised(m, a)
    else Normalised(m, a)
  }

  /** The intersection test: the chosen root, with no further check of the length. */
  function IntersectionWith(m: MathLib, y: Cylinder, ray: Ray): (h: Option<SurfaceHit>)
    ensures h.Some? <==> ChosenRoot(m, y, ray).Some?
    ensures h.Some? ==> h.value.distance == ChosenRoot(m, y, ray).value
    ensures h.Some? ==> h.value.location == EvaluateAt(ray, h.value.distance) && h.value.normal == NormalAt(m, y, h.value.location)
  {
    match ChosenRoot(m, y, ray)
    case None => None
    case Some(s) =>
      var p := EvaluateAt(ray, s);
      Some(SurfaceHit(s, p, NormalAt(m, y, p)))
  }

  // ---------------------------------------------------------------------------
  // Texture map
  // ---------------------------------------------------------------------------

  /** `getHTheta`: the axial height, and the angle between the normal and the start vector, in that order. */
  function HTheta(m: MathLib, y: Cylinder, p: Vec3): (ht: (real, real))
    ensures AcosLaws(m) ==> 0.0 <= ht.1 <= m.pi
  {
    (AxialHeight(y, p), m.acos(Dot(NormalAt(m, y, p), y.angleStart)))
  }

  /**
   * The texel at a point. The pair's first part, the height, is bound to
   * the name for the angle and the second part to the name for the height,
   * so the column comes from the height over pi and the row from the angle
   * over the length.
   */
  function TextureTexel(m: MathLib, y: Cylinder, g: Grid<Colour>, p: Vec3): (r: Result<Colour, Fault>)
    ensures g.Unloaded? ==> r == Err(DivideByZero)
    ensures Loaded(g) && m.pi > 0.0 && AxialHeight(y, p) >= 0.0 ==> r.Ok?
  {
    var ht := HTheta(m, y, p);
    var theta, h := ht.0, ht.1;
    var col := CastScaled(g.Width(), theta, m.pi);
    if Loaded(g) && m.pi > 0.0 && theta >= 0.0 then
      FlippedRowTexelNonNegative(g, col, CastScaled(g.Height(), h, y.length));
      FlippedRowTexel(g, col, CastScaled(g.Height(), h, y.length))
    else FlippedRowTexel(g, col, CastScaled(g.Height(), h, y.length))
  }

  /** The column is the axial height scaled by the width over pi; the row uses the angle. */
  lemma TextureTexelSwapsCoordinates(m: MathLib, y: Cylinder, g: Grid<Colour>, p: Vec3)
    ensures TextureTexel(m, y, g, p) == FlippedRowTexel(g,
      CastScaled(g.Width(), AxialHeight(y, p), m.pi),
      CastScaled(g.Height(), m.acos(Dot(NormalAt(m, y, p), y.angleStart)), y.length))
  {
  }

  /** At any point the cylinder reports as a hit, the texel exists in a loaded map: its height is positive. */
  lemma TextureTexelAtHit(m: MathLib, y: Cylinder, g: Grid<Colour>, ray: Ray)
    requires m.pi > 0.0 && Loaded(g)
    requires IntersectionWith(m, y, ray).Some?
    ensures TextureTexel(m, y, g, IntersectionWith(m, y, ray).value.location).Ok?
  {
    var h := IntersectionWith(m, y, ray).value;
    var r := ChosenRoot(m, y, ray).value;
    assert h.location == EvaluateAt(ray, r);
    var a, b, c := CoefficientA(y, ray), CoefficientB(y, ray), CoefficientC(y, ray);
    var rejected := OutsideFilter(y, ray);
    assert ChosenRoot(m, y, ray) == FirstSolution(m, a, b, c, rejected);
    assert !rejected(r) by {
      match Solve(m, a, b, c)
      case TwoRoots(t1, t2) =>
        assert SmallestAdmissible(t1, rejected(t1), t2, rejected(t2), ChosenRoot(m, y, ray));
      case _ =>
    }
    assert AxialHeight(y, h.location) > 0.0;
  }

  /** `getColourAt`: the texel on a textured cylinder, the cylinder's own colour otherwise. */
  function ColourAt(m: MathLib, y: Cylinder, p: Vec3, colour: Colour): (r: Result<Colour, Fault>)
    ensures y.textureMap.None? ==> r == Ok(colour)
    ensures m.pi > 0.0 && y.textureMap.Some? && Loaded(y.textureMap.value) && AxialHeight(y, p) >= 0.0 ==> r.Ok?
  {
    match y.textureMap
    case None => Ok(colour)
    case Some(g) => TextureTexel(m, y, g, p)
  }
}
