/**
 * The four kinds of scene object behind one interface: each object is a
 * shape with a colour and the material the renderer reads, and the two
 * calls the renderer makes on an object, `intersectionWith` and
 * `getColourAt`, dispatch on the shape.
 */
module SceneObjects {
  import opened Results
  import opened JavaMath
  import opened Vectors
  import opened Colours
  import opened Rays
  import opened Roots
  import opened Texels
  import opened RaycastHit
  import opened Rendering
  import Spheres
  import Planes
  import Cones
  import Cylinders

  datatype Shape =
    | SphereShape(sphere: Spheres.Sphere)
    | PlaneShape(plane: Planes.Plane)
    | ConeShape(cone: Cones.Cone)
    | CylinderShape(cylinder: Cylinders.Cylinder)

  datatype SceneObject = SceneObject(shape: Shape, colour: Colour, material: Material)

  /**
   * The shape behaviour the model takes as given: the normals that the bump
   * maps perturb, and the sphere's polar angles of a point.
   */
  datatype Surfaces = Surfaces(
    sphereBump: (Spheres.Sphere, Vec3) -> Vec3,
    planeBump: (Planes.Plane, Vec3) -> Vec3,
    phiTheta: (Spheres.Sphere, Vec3) -> (real, real))

  /** Every shape starts with these Phong and reflection constants. */
  const DefaultKD: real := 0.8
  const DefaultKS: real := 1.2
  const DefaultAlpha: real := 10.0
  const DefaultReflectivity: real := 0.3

  /** A sphere is not refractive unless it is given an index. */
  const DefaultSphereRefractiveIndex: real := 0.0

  /** The shape's own intersection test. */
  function SurfaceHitOf(m: MathLib, f: Surfaces, shape: Shape, ray: Ray): Option<SurfaceHit> {
    match shape
    case SphereShape(s) => Spheres.IntersectionWith(m, s, ray, v => f.sphereBump(s, v))
    case PlaneShape(p) => Planes.IntersectionWith(m, p, ray, v => f.planeBump(p, v))
    case ConeShape(k) => Cones.IntersectionWith(m, k, ray)
    case CylinderShape(y) => Cylinders.IntersectionWith(m, y, ray)
  }

  /** The cone's and the cylinder's chosen roots are never behind the ray's origin. */
  lemma FirstSolutionAhead(m: MathLib, a: real, b: real, c: real, rejected: real -> bool)
    ensures FirstSolution(m, a, b, c, rejected).Some? ==> FirstSolution(m, a, b, c, rejected).value >= 0.0
  {
  }

  /**
   * `intersectionWith` on a scene object: the shape's hit, tagged with the
   * object. Whatever the shape, a hit lies on the ray at a non-negative
   * parameter.
   */
  function IntersectionWith(m: MathLib, f: Surfaces, ray: Ray, o: SceneObject): (h: Hit<SceneObject>)
    ensures h.Miss? <==> SurfaceHitOf(m, f, o.shape, ray).None?
    ensures h.HitAt? ==> h.objectHit == o && h.distance >= 0.0 && h.location == EvaluateAt(ray, h.distance)
  {
    match o.shape
    case SphereShape(_) => HitOn(o, SurfaceHitOf(m, f, o.shape, ray))
    case PlaneShape(_) => HitOn(o, SurfaceHitOf(m, f, o.shape, ray))
    case ConeShape(k) =>
      FirstSolutionAhead(m, Cones.CoefficientA(m, k, ray), Cones.CoefficientB(m, k, ray), Cones.CoefficientC(m, k, ray), Cones.ShadowFilter(k, ray));
      HitOn(o, SurfaceHitOf(m, f, o.shape, ray))
    case CylinderShape(y) =>
      FirstSolutionAhead(m, Cylinders.CoefficientA(y, ray), Cylinders.CoefficientB(y, ray), Cylinders.CoefficientC(y, ray), Cylinders.OutsideFilter(y, ray));
      HitOn(o, SurfaceHitOf(m, f, o.shape, ray))
  }

  /** The scene query over real objects: the nearest hit belongs to a scene object and lies ahead of the ray. */
  lemma ClosestHitAhead(m: MathLib, f: Surfaces, s: Scene<SceneObject>, ray: Ray)
    ensures var h := FindClosestIntersection(s, o => IntersectionWith(m, f, ray, o));
      h.HitAt? ==> h.objectHit in s.objects && h.distance >= 0.0 && h.location == EvaluateAt(ray, h.distance)
  {
    var hits := HitsOf(s.objects, o => IntersectionWith(m, f, ray, o));
    ClosestIsFirstNearest(hits);
    var h := Closest(hits);
    if h.HitAt? {
      var k :| 0 <= k < |hits| && hits[k] == h && FirstNearestAt(hits, k);
      assert h == IntersectionWith(m, f, ray, s.objects[k]);
    }
  }

  /** An object without a texture map shows its own colour everywhere. */
  predicate Untextured(o: SceneObject) {
    match o.shape
    case SphereShape(s) => s.textureMap.None?
    case PlaneShape(pl) => pl.textureMap.None?
    case ConeShape(k) => k.textureMap.None?
    case CylinderShape(y) => y.textureMap.None?
  }

  /** A texture map that was named and whose image was read. */
  predicate LoadedTexture(o: SceneObject) {
    match o.shape
    case SphereShape(s) => s.textureMap.Some? && Loaded(s.textureMap.value)
    case PlaneShape(pl) => pl.textureMap.Some? && Loaded(pl.textureMap.value)
    case ConeShape(k) => k.textureMap.Some? && Loaded(k.textureMap.value)
    case CylinderShape(y) => y.textureMap.Some? && Loaded(y.textureMap.value)
  }

  /** `getColourAt`: the texture's colour on a textured shape, else the object's own colour. */
  function ColourAt(m: MathLib, f: Surfaces, o: SceneObject, p: Vec3): (r: Result<Colour, Fault>)
    ensures Untextured(o) ==> r == Ok(o.colour)
  {
    match o.shape
    case SphereShape(s) => Spheres.ColourAt(m, s, p, v => f.phiTheta(s, v), o.colour)
    case PlaneShape(pl) => Planes.ColourAt(pl, p, o.colour)
    case ConeShape(k) => Cones.ColourAt(m, k, p, o.colour)
    case CylinderShape(y) => Cylinders.ColourAt(m, y, p, o.colour)
  }

  /**
   * Shading a point that a ray hit never faults when the object's map was
   * read, given a sphere's angles in their ranges: the lookups stay inside
   * the image.
   */
  lemma ColourAtHitDefined(m: MathLib, f: Surfaces, o: SceneObject, ray: Ray)
    requires AcosLaws(m) && LoadedTexture(o)
    requires IntersectionWith(m, f, ray, o).HitAt?
    requires o.shape.SphereShape? ==>
      var pt := f.phiTheta(o.shape.sphere, IntersectionWith(m, f, ray, o).location);
      0.0 <= pt.0 < 2.0 * m.pi && 0.0 <= pt.1 < m.pi
    ensures ColourAt(m, f, o, IntersectionWith(m, f, ray, o).location).Ok?
  {
    var p := IntersectionWith(m, f, ray, o).location;
    match o.shape
    case SphereShape(s) =>
    case PlaneShape(pl) =>
    case ConeShape(k) =>
    case CylinderShape(y) =>
      Cylinders.TextureTexelAtHit(m, y, y.textureMap.value, ray);
  }

  /**
   * Shading a textured sphere whose texture was read throws at a point whose
   * declination is `π`, the south pole: the row index is one past the map.
   */
  lemma ColourAtSouthPoleFaults(m: MathLib, f: Surfaces, o: SceneObject, p: Vec3)
    requires m.pi > 0.0 && o.shape.SphereShape? && LoadedTexture(o)
    requires 0.0 <= f.phiTheta(o.shape.sphere, p).0 <= 2.0 * m.pi
    requires f.phiTheta(o.shape.sphere, p).1 == m.pi
    ensures ColourAt(m, f, o, p) == Err(IndexOutOfBounds)
  {
  }
}
