/**
 * A sphere: its intersection with a ray, its surface normal, and the integer
 * arithmetic of its bump-map and texture-map lookups.
 */
module Spheres {
  import opened Results
  import opened JavaMath
  import opened JavaInt
  import opened Vectors
  import opened Colours
  import opened Rays
  import opened Roots
  import opened Texels
  import opened RaycastHit

  /**
   * The geometry and maps of a sphere. A sphere is bumpy (textured) exactly
   * when it was built with a bump-map (texture-map) file name, whether or
   * not the image could be read.
   */
  datatype Sphere = Sphere(position: Vec3, radius: real, bumpMap: Option<Grid<real>>, textureMap: Option<Grid<Colour>>)

  /** The short constructor: no bump map and no texture. */
  function Plain(position: Vec3, radius: real): (s: Sphere)
    ensures s.position == position && s.radius == radius
    ensures s.bumpMap.None? && s.textureMap.None?
  {
    Sphere(position, radius, None, None)
  }

  predicate Bumpy(s: Sphere) {
    s.bumpMap.Some?
  }

  predicate Textured(s: Sphere) {
    s.textureMap.Some?
  }

  // ---------------------------------------------------------------------------
  // Intersection
  // ---------------------------------------------------------------------------

  /** `a = D·D`. */
  function CoefficientA(ray: Ray): real {
    Dot(ray.direction, ray.direction)
  }

  /** `b = 2 D·(O - C)`. */
  function CoefficientB(s: Sphere, ray: Ray): real {
    2.0 * Dot(ray.direction, Sub(ray.origin, s.position))
  }

  /** `c = (O - C)·(O - C) - r²`. */
  function CoefficientC(s: Sphere, ray: Ray): real {
    Dot(Sub(ray.origin, s.position), Sub(ray.origin, s.position)) - Square(s.radius)
  }

  /** The coefficients are those of the squared distance from the centre along the ray, less the squared radius. */
  lemma CoefficientsMeasureDistance(s: Sphere, ray: Ray, t: real)
    ensures Quadratic(CoefficientA(ray), CoefficientB(s, ray), CoefficientC(s, ray), t)
         == NormSq(Sub(EvaluateAt(ray, t), s.position)) - s.radius * s.radius
  {
    var d, w := ray.direction, Sub(ray.origin, s.position);
    OffsetLengthAlongRay(ray, s.position, t);
    SphereQuadratic(CoefficientA(ray), CoefficientB(s, ray), CoefficientC(s, ray), Dot(d, d), Dot(d, w), Dot(w, w), s.radius, t,
                    NormSq(Sub(EvaluateAt(ray, t), s.position)));
  }

  lemma SphereQuadratic(a: real, b: real, c: real, dd: real, dw: real, ww: real, r: real, t: real, n: real)
    requires a == dd && b == 2.0 * dw && c == ww - Square(r)
    requires n == Quadratic(dd, 2.0 * dw, ww, t)
    ensures Quadratic(a, b, c, t) == n - r * r
  {
  }

  /** `+1` when the ray starts outside the sphere or on it, `-1` when it starts inside. */
  function OutsideSign(m: MathLib, s: Sphere, origin: Vec3): real {
    if Magnitude(m, Sub(origin, s.position)) >= s.radius then 1.0 else -1.0
  }

  /** The sign compares squared distances: a starting point on the surface counts as outside. */
  lemma OutsideSignMeaning(m: MathLib, s: Sphere, origin: Vec3)
    requires SqrtLaws(m) && s.radius >= 0.0
    ensures OutsideSign(m, s, origin) == 1.0 <==> NormSq(Sub(origin, s.position)) >= s.radius * s.radius
    ensures OutsideSign(m, s, origin) == -1.0 <==> NormSq(Sub(origin, s.position)) < s.radius * s.radius
  {
    MagnitudeCompare(m, Sub(origin, s.position), s.radius);
  }

  /** The outward normal, or whatever the bump map makes of it on a bumpy sphere. */
  function NormalAt(m: MathLib, s: Sphere, p: Vec3, bumpyNormal: Vec3 -> Vec3): (n: Vec3)
    ensures Bumpy(s) ==> n == bumpyNormal(p)
    ensures !Bumpy(s) ==> n == Normalised(m, Sub(p, s.position))
  {
    if Bumpy(s) then bumpyNormal(p) else Normalised(m, Sub(p, s.position))
  }

  /** Away from the centre, a smooth sphere's normal is the unit vector pointing outward from the centre. */
  lemma NormalIsRadial(m: MathLib, s: Sphere, p: Vec3, bumpyNormal: Vec3 -> Vec3)
    requires SqrtLaws(m) && !Bumpy(s) && p != s.position
    ensures NormSq(NormalAt(m, s, p, bumpyNormal)) == 1.0
    ensures exists k: real :: k > 0.0 && NormalAt(m, s, p, bumpyNormal) == Scale(Sub(p, s.position), k)
  {
    assert Sub(p, s.position) != Zero;
    NormalisedUnit(m, Sub(p, s.position));
  }

  /**
   * The intersection test: a miss for a negative discriminant (or a zero
   * direction) and when both roots are behind the origin; otherwise the
   * chosen root's point, with the normal flipped for a ray from inside.
   */
  function IntersectionWith(m: MathLib, s: Sphere, ray: Ray, bumpyNormal: Vec3 -> Vec3): (h: Option<SurfaceHit>)
    ensures Discriminant(CoefficientA(ray), CoefficientB(s, ray), CoefficientC(s, ray)) < 0.0 ==> h.None?
    ensures h.Some? ==> h.value.distance >= 0.0 && h.value.location == EvaluateAt(ray, h.value.distance)
    ensures h.Some? ==> h.value.normal == Scale(NormalAt(m, s, h.value.location, bumpyNormal), OutsideSign(m, s, ray.origin))
  {
    match Solve(m, CoefficientA(ray), CoefficientB(s, ray), CoefficientC(s, ray))
    case NoRealRoots => None
    case Degenerate => None
    case TwoRoots(t1, t2) =>
      match ChooseNearerRoot(t1, t2)
      case None => None
      case Some(t) =>
        var p := EvaluateAt(ray, t);
        Some(SurfaceHit(t, p, Scale(NormalAt(m, s, p, bumpyNormal), OutsideSign(m, s, ray.origin))))
  }

  /**
   * The test finds the first point of the sphere along the ray: a reported
   * hit is on the surface, and no point of the surface at a non-negative
   * parameter comes before it or is missed.
   */
  lemma IntersectionIsFirstSurfacePoint(m: MathLib, s: Sphere, ray: Ray, bumpyNormal: Vec3 -> Vec3, t: real)
    requires SqrtLaws(m) && ray.direction != Zero
    ensures IntersectionWith(m, s, ray, bumpyNormal).Some? ==>
      NormSq(Sub(IntersectionWith(m, s, ray, bumpyNormal).value.location, s.position)) == s.radius * s.radius
    ensures t >= 0.0 && NormSq(Sub(EvaluateAt(ray, t), s.position)) == s.radius * s.radius ==>
      IntersectionWith(m, s, ray, bumpyNormal).Some? && IntersectionWith(m, s, ray, bumpyNormal).value.distance <= t
  {
    HitIsOnSphere(m, s, ray, bumpyNormal);
    NoSurfacePointBeforeHit(m, s, ray, bumpyNormal, t);
  }

  lemma HitIsOnSphere(m: MathLib, s: Sphere, ray: Ray, bumpyNormal: Vec3 -> Vec3)
    requires SqrtLaws(m) && ray.direction != Zero
    ensures IntersectionWith(m, s, ray, bumpyNormal).Some? ==>
      NormSq(Sub(IntersectionWith(m, s, ray, bumpyNormal).value.location, s.position)) == s.radius * s.radius
  {
    IntersectionAtNearerSolution(m, s, ray, bumpyNormal);
    NearerSolutionOnSphere(m, s, ray);
  }

  lemma NearerSolutionOnSphere(m: MathLib, s: Sphere, ray: Ray)
    requires SqrtLaws(m) && ray.direction != Zero
    ensures var r := NearerSolution(m, CoefficientA(ray), CoefficientB(s, ray), CoefficientC(s, ray));
      r.Some? ==> NormSq(Sub(EvaluateAt(ray, r.value), s.position)) == s.radius * s.radius
  {
    var a, b, c := CoefficientA(ray), CoefficientB(s, ray), CoefficientC(s, ray);
    CoefficientAPositive(ray);
    NearerSolutionIsEarliest(m, a, b, c, 0.0);
    var r := NearerSolution(m, a, b, c);
    if r.Some? {
      RootIsOnSphere(s, ray, r.value);
    }
  }

  lemma NoSurfacePointBeforeHit(m: MathLib, s: Sphere, ray: Ray, bumpyNormal: Vec3 -> Vec3, t: real)
    requires SqrtLaws(m) && ray.direction != Zero
    ensures t >= 0.0 && NormSq(Sub(EvaluateAt(ray, t), s.position)) == s.radius * s.radius ==>
      IntersectionWith(m, s, ray, bumpyNormal).Some? && IntersectionWith(m, s, ray, bumpyNormal).value.distance <= t
  {
    var a, b, c := CoefficientA(ray), CoefficientB(s, ray), CoefficientC(s, ray);
    CoefficientAPositive(ray);
    if t >= 0.0 && NormSq(Sub(EvaluateAt(ray, t), s.position)) == s.radius * s.radius {
      RootIsOnSphere(s, ray, t);
      NearerSolutionIsEarliest(m, a, b, c, t);
      IntersectionAtNearerSolution(m, s, ray, bumpyNormal);
    }
  }

  /** A ray with a direction has a genuine quadratic. */
  lemma CoefficientAPositive(ray: Ray)
    requires ray.direction != Zero
    ensures CoefficientA(ray) > 0.0
  {
    NormSqPositive(ray.direction);
  }

  /** A parameter solves the quadratic exactly when its point is on the sphere. */
  lemma RootIsOnSphere(s: Sphere, ray: Ray, t: real)
    ensures IsRoot(CoefficientA(ray), CoefficientB(s, ray), CoefficientC(s, ray), t)
        <==> NormSq(Sub(EvaluateAt(ray, t), s.position)) == s.radius * s.radius
  {
    CoefficientsMeasureDistance(s, ray, t);
  }

  /** The test reports the unfiltered nearer root of its quadratic. */
  lemma IntersectionAtNearerSolution(m: MathLib, s: Sphere, ray: Ray, bumpyNormal: Vec3 -> Vec3)
    ensures var h, r := IntersectionWith(m, s, ray, bumpyNormal), NearerSolution(m, CoefficientA(ray), CoefficientB(s, ray), CoefficientC(s, ray));
      && (h.None? <==> r.None?)
      && (h.Some? ==> h.value.distance == r.value && h.value.location == EvaluateAt(ray, r.value))
  {
  }

  // ---------------------------------------------------------------------------
  // Bump map and texture map
  // ---------------------------------------------------------------------------

  /** `(u % width, v % height)` then `heightMap[v][u]`: no correction for a negative remainder. */
  function HeightAt(g: Grid<real>, u: int, v: int): (r: Result<real, Fault>)
    ensures Loaded(g) ==> (r.Ok? <==> Rem(u, g.width) >= 0 && Rem(v, g.height) >= 0)
    ensures Loaded(g) && u >= 0 && v >= 0 ==> r == Ok(g.cells[v % g.height][u % g.width])
    ensures g.Width() == 0 || g.Height() == 0 ==> r == Err(DivideByZero)
  {
    match RemOrFault(u, g.Width())
    case Err(e) => Err(e)
    case Ok(x) =>
      match RemOrFault(v, g.Height())
      case Err(e) => Err(e)
      case Ok(y) => Cell(g, y, x)
  }

  /** A negative column that is not a multiple of the width is outside the map. */
  lemma HeightAtNegativeColumn(g: Grid<real>, u: int, v: int)
    requires Loaded(g) && g.width > 1 && u == -1
    ensures HeightAt(g, u, v) == Err(IndexOutOfBounds)
  {
  }

  /** The right-hand neighbour of the last column is the first column. */
  lemma HeightAtWrapsRight(g: Grid<real>, v: int)
    requires Loaded(g) && v >= 0
    ensures HeightAt(g, g.width, v) == HeightAt(g, 0, v)
  {
  }

  /** The forward differences `h(u,v) - h(u+1,v)` and `h(u,v) - h(u,v+1)`, in Java int arithmetic. */
  function BumpGradients(g: Grid<real>, u: int, v: int): (r: Result<(real, real), Fault>)
    ensures Loaded(g) && 0 <= u < MaxInt && 0 <= v < MaxInt ==>
      r == Ok((g.cells[v % g.height][u % g.width] - g.cells[v % g.height][(u + 1) % g.width],
               g.cells[v % g.height][u % g.width] - g.cells[(v + 1) % g.height][u % g.width]))
  {
    match HeightAt(g, u, v)
    case Err(e) => Err(e)
    case Ok(here) =>
      match HeightAt(g, Wrap(u + 1), v)
      case Err(e) => Err(e)
      case Ok(right) =>
        match HeightAt(g, u, Wrap(v + 1))
        case Err(e) => Err(e)
        case Ok(below) => Ok((here - right, here - below))
  }

  /**
   * `getUV`: the texel column `(int)(W·φ/2π)` and row `(int)(H·θ/π)`. A map
   * of size 0, as an unloaded texture records, sends every angle to index 0.
   */
  function UV(m: MathLib, width: int, height: int, phi: real, theta: real): (uv: (int, int))
    ensures width == 0 ==> uv.0 == 0
    ensures height == 0 ==> uv.1 == 0
    ensures m.pi > 0.0 && 0 <= width <= MaxInt && 0.0 <= phi <= 2.0 * m.pi ==> 0 <= uv.0 <= width
    ensures m.pi > 0.0 && 0 <= height <= MaxInt && 0.0 <= theta <= m.pi ==> 0 <= uv.1 <= height
  {
    ScaledIndexRange(width, phi, 2.0 * m.pi);
    ScaledIndexRange(height, theta, m.pi);
    (CastScaled(width, phi, 2.0 * m.pi), CastScaled(height, theta, m.pi))
  }

  /**
   * For angles in their ranges the indices lie in `[0, W] × [0, H]`; they are
   * inside the map only for `φ < 2π` and `θ < π`, and the south pole `θ = π`
   * gives row `H`.
   */
  lemma UVRange(m: MathLib, width: int, height: int, phi: real, theta: real)
    requires m.pi > 0.0
    requires 0 < width <= MaxInt && 0 < height <= MaxInt
    requires 0.0 <= phi <= 2.0 * m.pi && 0.0 <= theta <= m.pi
    ensures 0 <= UV(m, width, height, phi, theta).0 <= width
    ensures 0 <= UV(m, width, height, phi, theta).1 <= height
    ensures phi < 2.0 * m.pi ==> UV(m, width, height, phi, theta).0 < width
    ensures theta < m.pi ==> UV(m, width, height, phi, theta).1 < height
    ensures theta == m.pi ==> UV(m, width, height, phi, theta).1 == height
  {
    ScaledIndexBounds(width, phi, 2.0 * m.pi);
    ScaledIndexBounds(height, theta, m.pi);
  }

  /** The width `getUV` scales by: the texture's, 0 while no texture was read. */
  function TextureWidth(s: Sphere): int {
    match s.textureMap
    case None => 0
    case Some(t) => t.Width()
  }

  /** The height `getUV` scales by: the texture's, 0 while no texture was read. */
  function TextureHeight(s: Sphere): int {
    match s.textureMap
    case None => 0
    case Some(t) => t.Height()
  }

  /**
   * The indices `getBumpyNormalAt` reads the height map at: `getUV` of the
   * point's angles, which scales by the texture's sizes, not the bump map's.
   */
  function BumpIndices(m: MathLib, s: Sphere, phi: real, theta: real): (uv: (int, int))
    ensures !Textured(s) ==> uv == (0, 0)
  {
    UV(m, TextureWidth(s), TextureHeight(s), phi, theta)
  }

  /**
   * As written, a bumpy sphere without a texture reads the same three heights
   * at every point, whatever the bump map's size: the bumps do not vary over
   * the surface.
   */
  lemma BumpIndicesUntextured(m: MathLib, s: Sphere, g: Grid<real>, phi: real, theta: real)
    requires !Textured(s) && Loaded(g)
    ensures BumpIndices(m, s, phi, theta) == (0, 0)
    ensures BumpGradients(g, BumpIndices(m, s, phi, theta).0, BumpIndices(m, s, phi, theta).1)
         == BumpGradients(g, 0, 0)
    ensures g.width > 1 && g.height > 1 ==>
      BumpGradients(g, BumpIndices(m, s, phi, theta).0, BumpIndices(m, s, phi, theta).1)
      == Ok((g.cells[0][0] - g.cells[0][1], g.cells[0][0] - g.cells[1][0]))
  {
    if g.width > 1 && g.height > 1 {
      assert 0 % g.width == 0 && 1 % g.width == 1;
      assert 0 % g.height == 0 && 1 % g.height == 1;
    }
  }

  /** A texture that was never named or never read, or a loaded one whose sizes leave room for the `+ 1` neighbour. */
  predicate TextureSizesFit(s: Sphere) {
    match s.textureMap
    case None => true
    case Some(t) => t.Unloaded? || (Loaded(t) && t.width < MaxInt && t.height < MaxInt)
  }

  /**
   * The bump gradients as written never fault on a loaded bump map, for angles
   * in their ranges: the indices are non-negative and the `%` in
   * `getHeightAt` wraps them into the map, whatever the texture's size.
   */
  lemma BumpGradientsInRange(m: MathLib, s: Sphere, g: Grid<real>, phi: real, theta: real)
    requires m.pi > 0.0 && Loaded(g) && TextureSizesFit(s)
    requires 0.0 <= phi <= 2.0 * m.pi && 0.0 <= theta <= m.pi
    ensures BumpGradients(g, BumpIndices(m, s, phi, theta).0, BumpIndices(m, s, phi, theta).1).Ok?
  {
    var uv := BumpIndices(m, s, phi, theta);
    assert 0 <= TextureWidth(s) < MaxInt && 0 <= TextureHeight(s) < MaxInt;
    assert 0 <= uv.0 < MaxInt && 0 <= uv.1 < MaxInt;
  }

  /** The indices evidently intended: `getUV` scaled by the bump map's own sizes. */
  function IntendedBumpIndices(m: MathLib, g: Grid<real>, phi: real, theta: real): (int, int) {
    UV(m, g.Width(), g.Height(), phi, theta)
  }

  /**
   * Scaled by the bump map's sizes, the indices cover the map: every angle
   * away from the seam and the south pole lands inside it, the angle 0 on its
   * first column and row, and the gradients there never fault.
   */
  lemma IntendedBumpIndicesInMap(m: MathLib, g: Grid<real>, phi: real, theta: real)
    requires m.pi > 0.0 && Loaded(g)
    requires 0.0 <= phi < 2.0 * m.pi && 0.0 <= theta < m.pi
    ensures 0 <= IntendedBumpIndices(m, g, phi, theta).0 < g.width
    ensures 0 <= IntendedBumpIndices(m, g, phi, theta).1 < g.height
    ensures phi == 0.0 ==> IntendedBumpIndices(m, g, phi, theta).0 == 0
    ensures theta == 0.0 ==> IntendedBumpIndices(m, g, phi, theta).1 == 0
    ensures BumpGradients(g, IntendedBumpIndices(m, g, phi, theta).0, IntendedBumpIndices(m, g, phi, theta).1).Ok?
  {
    UVRange(m, g.width, g.height, phi, theta);
  }

  /**
   * `textureMap[v][u]` at the (u, v) of the angles, with no wrap: inside the
   * map for angles below `2π` and `π`, one row past it at the south pole, and
   * a null array when the image never loaded.
   */
  function TextureTexelAsWritten(m: MathLib, g: Grid<Colour>, phi: real, theta: real): (r: Result<Colour, Fault>)
    ensures g.Unloaded? ==> r == Err(NullArray)
    ensures m.pi > 0.0 && Loaded(g) && 0.0 <= phi < 2.0 * m.pi && 0.0 <= theta < m.pi ==>
      r.Ok? && r.value in g.cells[UV(m, g.width, g.height, phi, theta).1]
    ensures m.pi > 0.0 && Loaded(g) && 0.0 <= phi <= 2.0 * m.pi && theta == m.pi ==> r == Err(IndexOutOfBounds)
  {
    var uv := UV(m, g.Width(), g.Height(), phi, theta);
    if m.pi > 0.0 && Loaded(g) && 0.0 <= phi <= 2.0 * m.pi && 0.0 <= theta <= m.pi then
      UVRange(m, g.width, g.height, phi, theta);
      Cell(g, uv.1, uv.0)
    else Cell(g, uv.1, uv.0)
  }

  /** At the south pole the lookup as written reads row `H`, one past the last row, and throws. */
  lemma SouthPoleOutOfBounds(m: MathLib, g: Grid<Colour>, phi: real)
    requires m.pi > 0.0 && Loaded(g)
    requires 0.0 <= phi <= 2.0 * m.pi
    ensures TextureTexelAsWritten(m, g, phi, m.pi) == Err(IndexOutOfBounds)
  {
  }

  /** An index in `[0, n]` pulled back to `n - 1` when it reaches `n`. */
  function ClampIndex(i: int, n: int): int {
    if i >= n then n - 1 else i
  }

  /** The lookup with the index clamped into the map, so that `θ = π` reads the last row and `φ = 2π` the last column. */
  function ClampedTexel(m: MathLib, g: Grid<Colour>, phi: real, theta: real): (r: Result<Colour, Fault>)
    ensures g.Unloaded? ==> r == Err(NullArray)
    ensures m.pi > 0.0 && Loaded(g) && 0.0 <= phi <= 2.0 * m.pi && theta == m.pi ==>
      r.Ok? && r.value in g.cells[g.height - 1]
  {
    var uv := UV(m, g.Width(), g.Height(), phi, theta);
    if m.pi > 0.0 && Loaded(g) && 0.0 <= phi <= 2.0 * m.pi && 0.0 <= theta <= m.pi then
      UVRange(m, g.width, g.height, phi, theta);
      Cell(g, ClampIndex(uv.1, g.Height()), ClampIndex(uv.0, g.Width()))
    else Cell(g, ClampIndex(uv.1, g.Height()), ClampIndex(uv.0, g.Width()))
  }

  /**
   * With the clamp, every point of the sphere has a texel, and away from the
   * seam and the south pole it is the texel the lookup as written reads.
   */
  lemma ClampedTexelInRange(m: MathLib, g: Grid<Colour>, phi: real, theta: real)
    requires m.pi > 0.0 && Loaded(g)
    requires 0.0 <= phi <= 2.0 * m.pi && 0.0 <= theta <= m.pi
    ensures ClampedTexel(m, g, phi, theta).Ok?
    ensures phi < 2.0 * m.pi && theta < m.pi ==> ClampedTexel(m, g, phi, theta) == TextureTexelAsWritten(m, g, phi, theta)
  {
    UVRange(m, g.width, g.height, phi, theta);
  }

  /**
   * `getColourAt`: the texel `getTextureColourAt` reads at the surface point's
   * angles on a textured sphere, the sphere's own colour otherwise. The angles
   * of `getPhiTheta` are given, as the oracle `phiTheta`.
   */
  function ColourAt(m: MathLib, s: Sphere, p: Vec3, phiTheta: Vec3 -> (real, real), colour: Colour): (r: Result<Colour, Fault>)
    ensures !Textured(s) ==> r == Ok(colour)
    ensures (Textured(s) && m.pi > 0.0 && Loaded(s.textureMap.value)
             && 0.0 <= phiTheta(p).0 < 2.0 * m.pi && 0.0 <= phiTheta(p).1 < m.pi) ==> r.Ok?
    ensures (Textured(s) && m.pi > 0.0 && Loaded(s.textureMap.value)
             && 0.0 <= phiTheta(p).0 <= 2.0 * m.pi && phiTheta(p).1 == m.pi) ==> r == Err(IndexOutOfBounds)
  {
    match s.textureMap
    case None => Ok(colour)
    case Some(g) => TextureTexelAsWritten(m, g, phiTheta(p).0, phiTheta(p).1)
  }
}
