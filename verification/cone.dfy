/**
 * A finite cone with its apex at `point`, opening along `axis` with a
 * half-angle in degrees, cut off at a slant length: its intersection with a
 * ray, its surface normal and its texture lookup.
 */
module Cones {
  import opened Results
  import opened JavaMath
  import opened JavaInt
  import opened Vectors
  import opened Colours
  import opened Rays
  import opened Roots
  import opened Axes
  import opened Texels
  import opened RaycastHit

  const DefaultLength: real := 1.0
  const DefaultAngle: real := 45.0

  /** The cone's geometry, its start vector for texture angles, and its texture map if it was given one. */
  datatype Cone = Cone(point: Vec3, axis: Vec3, angle: real, length: real, angleStart: Vec3, textureMap: Option<Grid<Colour>>)

  /** Both constructors: the start vector is derived from the axis. */
  function NewCone(m: MathLib, point: Vec3, axis: Vec3, angle: real, length: real, textureMap: Option<Grid<Colour>>): (k: Cone)
    ensures k.point == point && k.axis == axis && k.angle == angle && k.length == length
    ensures k.textureMap == textureMap
    ensures Dot(k.angleStart, axis) == 0.0
  {
    Cone(point, axis, angle, length, AngleStart(m, axis), textureMap)
  }

  // ---------------------------------------------------------------------------
  // Intersection
  // ---------------------------------------------------------------------------

  /** `Math.pow(Math.cos(angle in radians), 2)`. */
  function CosSquared(m: MathLib, k: Cone): real {
    Square(m.cos(Radians(m, k.angle)))
  }

  /** `a = (D·V)² - cos²θ`. */
  function CoefficientA(m: MathLib, k: Cone, ray: Ray): real {
    Square(Dot(ray.direction, k.axis)) - CosSquared(m, k)
  }

  /** `b = 2 ((D·V)(CO·V) - (D·CO) cos²θ)` with `CO = O - C`. */
  function CoefficientB(m: MathLib, k: Cone, ray: Ray): real {
    var co := Sub(ray.origin, k.point);
    2.0 * (Dot(ray.direction, k.axis) * Dot(co, k.axis) - Dot(ray.direction, co) * CosSquared(m, k))
  }

  /** `c = (CO·V)² - (CO·CO) cos²θ`. */
  function CoefficientC(m: MathLib, k: Cone, ray: Ray): real {
    var co := Sub(ray.origin, k.point);
    Square(Dot(co, k.axis)) - Dot(co, co) * CosSquared(m, k)
  }

  /** A point on the double cone: its offset from the apex makes the half-angle with the axis line. */
  predicate OnDoubleCone(m: MathLib, k: Cone, p: Vec3) {
    Square(Dot(Sub(p, k.point), k.axis)) == NormSq(Sub(p, k.point)) * CosSquared(m, k)
  }

  /**
   * For a unit direction the coefficients are those of the cone equation
   * along the ray; `a` uses `D·D = 1` in place of the direction's length.
   */
  lemma CoefficientsDescribeCone(m: MathLib, k: Cone, ray: Ray, t: real)
    requires NormSq(ray.direction) == 1.0
    ensures Quadratic(CoefficientA(m, k, ray), CoefficientB(m, k, ray), CoefficientC(m, k, ray), t)
         == ConeResidual(Dot(Sub(EvaluateAt(ray, t), k.point), k.axis), NormSq(Sub(EvaluateAt(ray, t), k.point)), CosSquared(m, k))
  {
    var d, co, v := ray.direction, Sub(ray.origin, k.point), k.axis;
    var w := Sub(EvaluateAt(ray, t), k.point);
    AxialOffsetAlongRay(ray, k.point, v, t);
    OffsetLengthAlongRay(ray, k.point, t);
    assert Dot(d, d) == 1.0;
    ConeQuadratic(CoefficientA(m, k, ray), CoefficientB(m, k, ray), CoefficientC(m, k, ray),
                  Dot(d, v), Dot(co, v), Dot(d, co), Dot(co, co), Dot(d, d), CosSquared(m, k), t, Dot(w, v), NormSq(w));
  }

  /** `(W·V)² - |W|² cos²θ` for the offset `W` of a point from the apex, which vanishes on the double cone. */
  function ConeResidual(wv: real, ww: real, q: real): real {
    Square(wv) - ww * q
  }

  /** Expanding `(CO·V + t D·V)² - (t² + 2t D·CO + CO·CO) cos²θ` by powers of `t`, for a unit direction. */
  lemma ConeQuadratic(a: real, b: real, c: real, dv: real, cv: real, dc: real, cc: real, dd: real, q: real, t: real, wv: real, ww: real)
    requires a == Square(dv) - q && b == 2.0 * (dv * cv - dc * q) && c == Square(cv) - cc * q
    requires dd == 1.0 && wv == cv + t * dv && ww == Quadratic(dd, 2.0 * dc, cc, t)
    ensures Quadratic(a, b, c, t) == ConeResidual(wv, ww, q)
  {
  }

  /** `checkShadowIntersection`: the point at `t` is on the apex's far side, in the mirror-image cone. */
  predicate Shadow(k: Cone, ray: Ray, t: real) {
    Dot(Sub(EvaluateAt(ray, t), k.point), k.axis) <= 0.0
  }

  /** The shadow test as the filter the root choice applies. */
  function ShadowFilter(k: Cone, ray: Ray): real -> bool {
    t => Shadow(k, ray, t)
  }

  /** The root the case analysis picks among the two roots and their shadow flags. */
  function ChosenRoot(m: MathLib, k: Cone, ray: Ray): Option<real> {
    FirstSolution(m, CoefficientA(m, k, ray), CoefficientB(m, k, ray), CoefficientC(m, k, ray), ShadowFilter(k, ray))
  }

  /**
   * The chosen root is the first point of the real (non-shadow) cone along
   * the ray: it is on the cone, on the ray's forward half and outside the
   * shadow, and no such point comes before it or is missed.
   */
  lemma ChosenRootIsFirstConePoint(m: MathLib, k: Cone, ray: Ray, t: real)
    requires SqrtLaws(m) && NormSq(ray.direction) == 1.0 && CoefficientA(m, k, ray) != 0.0
    ensures ChosenRoot(m, k, ray).Some? ==>
      var r := ChosenRoot(m, k, ray).value;
      r >= 0.0 && !Shadow(k, ray, r) && OnDoubleCone(m, k, EvaluateAt(ray, r))
    ensures t >= 0.0 && !Shadow(k, ray, t) && OnDoubleCone(m, k, EvaluateAt(ray, t)) ==>
      ChosenRoot(m, k, ray).Some? && ChosenRoot(m, k, ray).value <= t
  {
    var a, b, c := CoefficientA(m, k, ray), CoefficientB(m, k, ray), CoefficientC(m, k, ray);
    var rejected := ShadowFilter(k, ray);
    FirstSolutionIsEarliest(m, a, b, c, rejected, t);
    RootOnCone(m, k, ray, t);
    if ChosenRoot(m, k, ray).Some? {
      RootOnCone(m, k, ray, ChosenRoot(m, k, ray).value);
    }
  }

  /** The parameters at which the quadratic vanishes are the parameters of points on the double cone. */
  lemma RootOnCone(m: MathLib, k: Cone, ray: Ray, t: real)
    requires NormSq(ray.direction) == 1.0
    ensures IsRoot(CoefficientA(m, k, ray), CoefficientB(m, k, ray), CoefficientC(m, k, ray), t)
        <==> OnDoubleCone(m, k, EvaluateAt(ray, t))
  {
    CoefficientsDescribeCone(m, k, ray, t);
  }

  /** The slant distance from the apex to a point. */
  function SlantLength(m: MathLib, k: Cone, p: Vec3): real {
    Magnitude(m, Sub(p, k.point))
  }

  /** The slant clip compares squared distances: a point is kept when it is no farther from the apex than the length. */
  lemma SlantClipMeaning(m: MathLib, k: Cone, p: Vec3)
    requires SqrtLaws(m) && k.length >= 0.0
    ensures SlantLength(m, k, p) > k.length <==> NormSq(Sub(p, k.point)) > k.length * k.length
  {
    MagnitudeCompare(m, Sub(p, k.point), k.length);
  }

  /** `getNormalAt`: `(P × (I - P)) × (I - P)` normalised, with `P` the apex position itself. */
  function NormalAt(m: MathLib, k: Cone, p: Vec3): (n: Vec3)
    ensures Dot(n, Sub(p, k.point)) == 0.0
  {
    var pi := Sub(p, k.point);
    CrossOrthogonal(Cross(k.point, pi), pi);
    NormalisedOrthogonal(m, Cross(Cross(k.point, pi), pi), pi);
    Normalised(m, Cross(Cross(k.point, pi), pi))
  }

  /** The intersection test: the chosen root, unless its point lies beyond the slant length. */
  function IntersectionWith(m: MathLib, k: Cone, ray: Ray): (h: Option<SurfaceHit>)
    ensures h.Some? <==> ChosenRoot(m, k, ray).Some? && !(SlantLength(m, k, EvaluateAt(ray, ChosenRoot(m, k, ray).value)) > k.length)
    ensures h.Some? ==> h.value.distance == ChosenRoot(m, k, ray).value
    ensures h.Some? ==> h.value.location == EvaluateAt(ray, h.value.distance) && h.value.normal == NormalAt(m, k, h.value.location)
  {
    match ChosenRoot(m, k, ray)
    case None => None
    case Some(s) =>
      var p := EvaluateAt(ray, s);
      if SlantLength(m, k, p) > k.length then None else Some(SurfaceHit(s, p, NormalAt(m, k, p)))
  }

  // ---------------------------------------------------------------------------
  // Texture map
  // ---------------------------------------------------------------------------

  /** `getRTheta`: the distance from the apex, and the angle between the part across the axis and the start vector. */
  function RTheta(m: MathLib, k: Cone, p: Vec3): (rt: (real, real))
    ensures SqrtLaws(m) ==> rt.0 >= 0.0 && rt.0 * rt.0 == NormSq(Sub(p, k.point))
    ensures AcosLaws(m) ==> 0.0 <= rt.1 <= m.pi
  {
    var r := Sub(p, k.point);
    (Magnitude(m, r), m.acos(Dot(Normalised(m, Across(r, k.axis)), k.angleStart)))
  }

  /** The texel at a point: column from the angle over pi, row from the distance over the length, then wrapped and flipped. */
  function TextureTexel(m: MathLib, k: Cone, g: Grid<Colour>, p: Vec3): (r: Result<Colour, Fault>)
    ensures g.Unloaded? ==> r == Err(DivideByZero)
    ensures Loaded(g) && m.pi > 0.0 && RTheta(m, k, p).1 >= 0.0 ==> r.Ok?
  {
    var rt := RTheta(m, k, p);
    var col := CastScaled(g.Width(), rt.1, m.pi);
    if Loaded(g) && m.pi > 0.0 && rt.1 >= 0.0 then
      FlippedRowTexelNonNegative(g, col, CastScaled(g.Height(), rt.0, k.length));
      FlippedRowTexel(g, col, CastScaled(g.Height(), rt.0, k.length))
    else FlippedRowTexel(g, col, CastScaled(g.Height(), rt.0, k.length))
  }

  /** `getColourAt`: the texel on a textured cone, the cone's own colour otherwise. */
  function ColourAt(m: MathLib, k: Cone, p: Vec3, colour: Colour): (r: Result<Colour, Fault>)
    ensures k.textureMap.None? ==> r == Ok(colour)
    ensures AcosLaws(m) && k.textureMap.Some? && Loaded(k.textureMap.value) ==> r.Ok?
  {
    match k.textureMap
    case None => Ok(colour)
    case Some(g) => TextureTexel(m, k, g, p)
  }
}
