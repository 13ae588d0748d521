/**
 * An infinite plane, optionally clipped by a bounding sphere: its
 * intersection with a ray, its normal, and the integer arithmetic of its
 * bump-map and texture-map lookups.
 */
module Planes {
  import opened Results
  import opened JavaMath
  import opened JavaInt
  import opened Vectors
  import opened Colours
  import opened Rays
  import opened Texels
  import opened RaycastHit
  import opened SquareMatrix3

  /** The bounding operator `"<"` keeps the part inside the bounding sphere, `">"` the part outside. */
  datatype BoundingOperator = KeepInside | KeepOutside

  /**
   * A plane through `point` with normal `normal`. The bounding centre is null
   * for an unclipped plane. `transformation` is the matrix that maps the plane
   * onto the xz plane for the texture lookups; how it is built is not modelled.
   */
  datatype Plane = Plane(
    point: Vec3,
    normal: Vec3,
    boundingCentre: Option<Vec3>,
    boundingRadius: Distance,
    boundingOperator: BoundingOperator,
    bumpMap: Option<Grid<real>>,
    textureMap: Option<Grid<Colour>>,
    textureScale: real,
    transformation: Mat3)

  /** The scale of the bump map: three world units per image. */
  const BumpScale: real := 3.0

  /** `"<"` and `">"` are kept; anything else is reported and replaced by `"<"`. */
  function ParseOperator(s: string): (op: BoundingOperator)
    ensures op == KeepOutside <==> s == ">"
    ensures s == "<" ==> op == KeepInside
  {
    if s == "<" then KeepInside else if s == ">" then KeepOutside else KeepInside
  }

  /** The short constructor: no bounding centre, an infinite radius, `"<"`, and no maps. */
  function Unbounded(point: Vec3, normal: Vec3): (p: Plane)
    ensures p.point == point && p.normal == normal
    ensures p.boundingCentre.None? && p.boundingRadius == Infinite && p.boundingOperator == KeepInside
    ensures p.bumpMap.None? && p.textureMap.None?
  {
    Plane(point, normal, None, Infinite, KeepInside, None, None, 0.0, Identity)
  }

  /** The full constructor, with the operator text checked. */
  function Bounded(
    point: Vec3, normal: Vec3, bumpMap: Option<Grid<real>>, textureMap: Option<Grid<Colour>>,
    textureScale: real, transformation: Mat3, centre: Option<Vec3>, radius: Distance, operator: string): (p: Plane)
    ensures p.point == point && p.normal == normal
    ensures p.boundingCentre == centre && p.boundingRadius == radius
    ensures p.boundingOperator == ParseOperator(operator)
    ensures p.bumpMap == bumpMap && p.textureMap == textureMap
  {
    Plane(point, normal, centre, radius, ParseOperator(operator), bumpMap, textureMap, textureScale, transformation)
  }

  predicate Bumpy(p: Plane) {
    p.bumpMap.Some?
  }

  predicate Textured(p: Plane) {
    p.textureMap.Some?
  }

  // ---------------------------------------------------------------------------
  // Intersection
  // ---------------------------------------------------------------------------

  /** The ray parameter `s = (N·Q - N·O) / (N·D)`, or None for a ray parallel to the plane, where Java divides by zero. */
  function HitParameter(p: Plane, ray: Ray): (s: Option<real>)
    ensures s.None? <==> Dot(p.normal, ray.direction) == 0.0
  {
    var nd := Dot(p.normal, ray.direction);
    if nd == 0.0 then None else Some((Dot(p.normal, p.point) - Dot(p.normal, ray.origin)) / nd)
  }

  /** The parameter is the one point of the ray on the plane. */
  lemma HitParameterMeaning(p: Plane, ray: Ray, t: real)
    requires HitParameter(p, ray).Some?
    ensures Dot(p.normal, EvaluateAt(ray, HitParameter(p, ray).value)) == Dot(p.normal, p.point)
    ensures Dot(p.normal, EvaluateAt(ray, t)) == Dot(p.normal, p.point) ==> t == HitParameter(p, ray).value
  {
    var nd, no, nq := Dot(p.normal, ray.direction), Dot(p.normal, ray.origin), Dot(p.normal, p.point);
    var s := HitParameter(p, ray).value;
    AlongRay(p.normal, ray, s);
    AlongRay(p.normal, ray, t);
    assert s * nd == nq - no;
    if Dot(p.normal, EvaluateAt(ray, t)) == nq {
      assert t * nd == s * nd;
      CancelFactor(t, s, nd);
    }
  }

  lemma AlongRay(n: Vec3, ray: Ray, t: real)
    ensures Dot(n, EvaluateAt(ray, t)) == Dot(n, ray.origin) + t * Dot(n, ray.direction)
  {
  }

  lemma CancelFactor(x: real, y: real, k: real)
    requires k != 0.0 && x * k == y * k
    ensures x == y
  {
    assert (x - y) * k == 0.0;
  }

  /**
   * Whether the bounding sphere rejects a point: never without a centre;
   * with `">"` when the point is strictly closer than the radius, with `"<"`
   * when it is strictly farther.
   */
  predicate Clipped(m: MathLib, p: Plane, x: Vec3) {
    match p.boundingCentre
    case None => false
    case Some(c) =>
      var d := Finite(Magnitude(m, Sub(x, c)));
      match p.boundingOperator
      case KeepOutside => Closer(d, p.boundingRadius)
      case KeepInside => Closer(p.boundingRadius, d)
  }

  /**
   * The clip in squared distances: `">"` rejects the open ball and `"<"` its
   * open outside, so points exactly at the radius survive either way. An
   * infinite radius rejects everything under `">"` and nothing under `"<"`.
   */
  lemma ClippedMeaning(m: MathLib, p: Plane, x: Vec3)
    requires SqrtLaws(m)
    ensures p.boundingCentre.None? ==> !Clipped(m, p, x)
    ensures p.boundingCentre.Some? && p.boundingRadius.Finite? && p.boundingRadius.value >= 0.0 ==>
      var q, r := NormSq(Sub(x, p.boundingCentre.value)), p.boundingRadius.value;
      && (p.boundingOperator == KeepOutside ==> (Clipped(m, p, x) <==> q < r * r))
      && (p.boundingOperator == KeepInside ==> (Clipped(m, p, x) <==> q > r * r))
    ensures p.boundingCentre.Some? && p.boundingRadius.Infinite? ==>
      (Clipped(m, p, x) <==> p.boundingOperator == KeepOutside)
  {
    if p.boundingCentre.Some? && p.boundingRadius.Finite? && p.boundingRadius.value >= 0.0 {
      MagnitudeCompare(m, Sub(x, p.boundingCentre.value), p.boundingRadius.value);
    }
  }

  /** The stored normal, or whatever the bump map makes of it on a bumpy plane. */
  function NormalAt(p: Plane, x: Vec3, bumpyNormal: Vec3 -> Vec3): Vec3 {
    if Bumpy(p) then bumpyNormal(x) else p.normal
  }

  /** A smooth plane has the same normal everywhere, the one it was built with. */
  lemma NormalIsConstant(p: Plane, x: Vec3, y: Vec3, bumpyNormal: Vec3 -> Vec3)
    requires !Bumpy(p)
    ensures NormalAt(p, x, bumpyNormal) == NormalAt(p, y, bumpyNormal) == p.normal
  {
  }

  /** The intersection test: a miss behind the origin or outside the bounding rule, else the hit with the shading normal. */
  function IntersectionWith(m: MathLib, p: Plane, ray: Ray, bumpyNormal: Vec3 -> Vec3): (h: Option<SurfaceHit>)
    ensures h.Some? ==> HitParameter(p, ray) == Some(h.value.distance)
    ensures h.Some? ==> h.value.distance >= 0.0 && h.value.location == EvaluateAt(ray, h.value.distance)
    ensures h.Some? ==> !Clipped(m, p, h.value.location) && h.value.normal == NormalAt(p, h.value.location, bumpyNormal)
    ensures h.None? <==> (HitParameter(p, ray).None? || HitParameter(p, ray).value < 0.0
                          || Clipped(m, p, EvaluateAt(ray, HitParameter(p, ray).value)))
  {
    match HitParameter(p, ray)
    case None => None
    case Some(s) =>
      if s < 0.0 then None
      else
        var x := EvaluateAt(ray, s);
        if Clipped(m, p, x) then None else Some(SurfaceHit(s, x, NormalAt(p, x, bumpyNormal)))
  }

  /** A hit lies on the plane, and it is the only point of the ray that does. */
  lemma IntersectionOnPlane(m: MathLib, p: Plane, ray: Ray, bumpyNormal: Vec3 -> Vec3, t: real)
    requires IntersectionWith(m, p, ray, bumpyNormal).Some?
    ensures Dot(p.normal, IntersectionWith(m, p, ray, bumpyNormal).value.location) == Dot(p.normal, p.point)
    ensures Dot(p.normal, EvaluateAt(ray, t)) == Dot(p.normal, p.point) ==> t == IntersectionWith(m, p, ray, bumpyNormal).value.distance
  {
    HitParameterMeaning(p, ray, t);
  }

  // ---------------------------------------------------------------------------
  // Bump map and texture map
  // ---------------------------------------------------------------------------

  /** `getHeightAt`: both indices wrapped into the map, a negative remainder moved up by the size. */
  function HeightAt(g: Grid<real>, x: int, z: int): (r: Result<real, Fault>)
    ensures Loaded(g) ==> r == Ok(g.cells[WrapIndex(z, g.height)][WrapIndex(x, g.width)])
    ensures g.Width() == 0 || g.Height() == 0 ==> r == Err(DivideByZero)
  {
    match RemOrFault(x, g.Width())
    case Err(e) => Err(e)
    case Ok(x0) =>
      match RemOrFault(z, g.Height())
      case Err(e) => Err(e)
      case Ok(z0) =>
        var x1 := if x0 < 0 then x0 + g.Width() else x0;
        var z1 := if z0 < 0 then z0 + g.Height() else z0;
        Cell(g, z1, x1)
  }

  /** Every int, negative or not, reads a cell whose indices differ from it by whole periods of the map. */
  lemma HeightAtCongruent(g: Grid<real>, x: int, z: int)
    requires Loaded(g)
    ensures exists i, j ::
      && 0 <= i < g.height && 0 <= j < g.width
      && (exists k: int :: z == g.height * k + i) && (exists k: int :: x == g.width * k + j)
      && HeightAt(g, x, z) == Ok(g.cells[i][j])
  {
    WrapIndexCongruent(z, g.height);
    WrapIndexCongruent(x, g.width);
    var i, j := WrapIndex(z, g.height), WrapIndex(x, g.width);
    assert HeightAt(g, x, z) == Ok(g.cells[i][j]);
  }

  /** The forward differences `h(x,z) - h(x+1,z)` and `h(x,z) - h(x,z+1)`, in Java int arithmetic. */
  function BumpGradients(g: Grid<real>, x: int, z: int): (r: Result<(real, real), Fault>)
    ensures Loaded(g) ==> r.Ok?
  {
    match HeightAt(g, x, z)
    case Err(e) => Err(e)
    case Ok(here) =>
      match HeightAt(g, Wrap(x + 1), z)
      case Err(e) => Err(e)
      case Ok(right) =>
        match HeightAt(g, x, Wrap(z + 1))
        case Err(e) => Err(e)
        case Ok(below) => Ok((here - right, here - below))
  }

  /** At the last column and row the neighbours come from column 0 and row 0. */
  lemma BumpGradientsAtEdge(g: Grid<real>)
    requires Loaded(g)
    ensures BumpGradients(g, g.width - 1, g.height - 1) == Ok((
      g.cells[g.height - 1][g.width - 1] - g.cells[g.height - 1][0],
      g.cells[g.height - 1][g.width - 1] - g.cells[0][g.width - 1]))
  {
    assert Wrap(g.width - 1 + 1) == g.width;
    assert Wrap(g.height - 1 + 1) == g.height;
  }

  /** `mapVectortoXY`: the position relative to the plane's point, moved by the plane's transformation. */
  function MapToPlane(p: Plane, x: Vec3): Vec3 {
    LeftMultiply(p.transformation, Sub(x, p.point))
  }

  /** The bump-map indices of a mapped point, three world units to the image. */
  function BumpIndices(g: Grid<real>, mapped: Vec3): (int, int) {
    (CastScaled(g.Width(), mapped.x, BumpScale), CastScaled(g.Height(), mapped.z, BumpScale))
  }

  /**
   * `getTextureColourAt` on a mapped point: both coordinates are scaled by
   * the texture's width (the row too), wrapped with the negative correction,
   * and the row is flipped.
   */
  function TextureTexel(g: Grid<Colour>, scale: real, mapped: Vec3): (r: Result<Colour, Fault>)
    ensures Loaded(g) ==> r == Ok(g.cells[g.height - 1 - WrapIndex(CastScaled(g.width, mapped.z, scale), g.height)]
                                         [WrapIndex(CastScaled(g.width, mapped.x, scale), g.width)])
    ensures g.Width() == 0 || g.Height() == 0 ==> r == Err(DivideByZero)
  {
    var x := CastScaled(g.Width(), mapped.x, scale);
    var z := CastScaled(g.Width(), mapped.z, scale);
    match RemOrFault(x, g.Width())
    case Err(e) => Err(e)
    case Ok(x0) =>
      match RemOrFault(z, g.Height())
      case Err(e) => Err(e)
      case Ok(z0) =>
        var x1 := if x0 < 0 then x0 + g.Width() else x0;
        var z1 := if z0 < 0 then z0 + g.Height() else z0;
        Cell(g, g.Height() - z1 - 1, x1)
  }

  /** `getColourAt`: the texel under a textured plane's point, the plane's own colour otherwise. */
  function ColourAt(p: Plane, x: Vec3, colour: Colour): (r: Result<Colour, Fault>)
    ensures !Textured(p) ==> r == Ok(colour)
    ensures p.textureMap.Some? && Loaded(p.textureMap.value) ==> r.Ok?
  {
    match p.textureMap
    case None => Ok(colour)
    case Some(g) => TextureTexel(g, p.textureScale, MapToPlane(p, x))
  }
}
