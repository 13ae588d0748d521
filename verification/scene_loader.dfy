/**
 * Building a scene from the elements of a scene file: the attribute readers
 * with their fallbacks, the `#RRGGBB` colour parser, and the dispatch on
 * element names that adds one object or light per element.
 */
module SceneLoading {
  import opened Results
  import opened JavaMath
  import opened JavaInt
  import opened Vectors
  import opened Colours
  import opened Texels
  import opened RaycastHit
  import opened SquareMatrix3
  import opened Rendering
  import opened SceneObjects
  import Spheres
  import Planes
  import Cones
  import Cylinders

  /** An element of the scene file: its tag name and its attributes. */
  datatype Element = Element(name: string, attributes: map<string, string>)

  /** `getAttribute`: the attribute's text, or the empty string when the element has none. */
  function Attribute(e: Element, key: string): (v: string)
    ensures key !in e.attributes ==> v == ""
  {
    if key in e.attributes then e.attributes[key] else ""
  }

  /**
   * What loading relies on and the model does not define: `Double.parseDouble`
   * (None for a NumberFormatException), reading an image file, the plane's
   * texture matrix for a normal and a rotation, and the transmissivity test of
   * a scene object.
   */
  datatype Loaders = Loaders(
    parseDouble: string -> Option<real>,
    texture: string -> Grid<Colour>,
    bumpMap: string -> Grid<real>,
    planeMatrix: (Vec3, real) -> Mat3,
    isTransmissive: Colour -> bool,
    baseTransmittance: Colour,
    baseRefractiveIndex: real)

  /** `Double.parseDouble` rejects the empty string, which is what a missing attribute reads as. */
  ghost predicate ParserLaws(ld: Loaders) {
    ld.parseDouble("") == None
  }

  // ---------------------------------------------------------------------------
  // Attribute readers
  // ---------------------------------------------------------------------------

  /** `getDouble`: the parsed attribute, or the fallback exactly when parsing throws. */
  function GetDouble(ld: Loaders, e: Element, key: string, fallback: real): (r: real)
    ensures ld.parseDouble(Attribute(e, key)).Some? ==> r == ld.parseDouble(Attribute(e, key)).value
    ensures ld.parseDouble(Attribute(e, key)).None? ==> r == fallback
  {
    match ld.parseDouble(Attribute(e, key))
    case None => fallback
    case Some(v) => v
  }

  /** A missing attribute always reads as its fallback. */
  lemma MissingAttributeFallsBack(ld: Loaders, e: Element, key: string, fallback: real)
    requires ParserLaws(ld) && key !in e.attributes
    ensures GetDouble(ld, e, key, fallback) == fallback
  {
  }

  /** The bounding radius, whose fallback is `Double.POSITIVE_INFINITY`. */
  function GetRadius(ld: Loaders, e: Element): (r: Distance)
    ensures r.Infinite? <==> ld.parseDouble(Attribute(e, "bounding-radius")).None?
    ensures r.Finite? ==> r.value == GetDouble(ld, e, "bounding-radius", 0.0)
  {
    match ld.parseDouble(Attribute(e, "bounding-radius"))
    case None => Infinite
    case Some(v) => Finite(v)
  }

  function GetTriple(ld: Loaders, e: Element, kx: string, ky: string, kz: string): Vec3 {
    Vec3(GetDouble(ld, e, kx, 0.0), GetDouble(ld, e, ky, 0.0), GetDouble(ld, e, kz, 0.0))
  }

  function GetPosition(ld: Loaders, e: Element): Vec3 {
    GetTriple(ld, e, "x", "y", "z")
  }

  function GetNormal(m: MathLib, ld: Loaders, e: Element): Vec3 {
    Normalised(m, GetTriple(ld, e, "nx", "ny", "nz"))
  }

  function GetAxis(m: MathLib, ld: Loaders, e: Element): Vec3 {
    Normalised(m, GetTriple(ld, e, "ax", "ay", "az"))
  }

  /** `getRotation`: each angle taken `% 360` with Java's truncating remainder on doubles. */
  function GetRotation(ld: Loaders, e: Element): (r: Vec3)
    ensures -360.0 < r.x < 360.0 && -360.0 < r.y < 360.0 && -360.0 < r.z < 360.0
    ensures GetDouble(ld, e, "rx", 0.0) >= 0.0 ==> r.x >= 0.0
  {
    var v := GetTriple(ld, e, "rx", "ry", "rz");
    Vec3(DoubleRem(v.x, 360.0), DoubleRem(v.y, 360.0), DoubleRem(v.z, 360.0))
  }

  function GetTransmittance(ld: Loaders, e: Element): Colour {
    var v := GetTriple(ld, e, "tr", "tg", "tb");
    Colour(v.x, v.y, v.z)
  }

  /** All three of an element's coordinate attributes parse. */
  predicate AllParse(ld: Loaders, e: Element, kx: string, ky: string, kz: string) {
    ld.parseDouble(Attribute(e, kx)).Some? && ld.parseDouble(Attribute(e, ky)).Some? && ld.parseDouble(Attribute(e, kz)).Some?
  }

  /**
   * `getPlaneBoundingCentre`: the vector read from `bx`, `by` and `bz`, except
   * that a zero vector counts as unset, giving the fallback, unless all three
   * attributes really parse.
   */
  function GetPlaneBoundingCentre(ld: Loaders, e: Element, fallback: Option<Vec3>): (r: Option<Vec3>)
    ensures GetTriple(ld, e, "bx", "by", "bz") != Zero ==> r == Some(GetTriple(ld, e, "bx", "by", "bz"))
    ensures AllParse(ld, e, "bx", "by", "bz") ==> r == Some(GetTriple(ld, e, "bx", "by", "bz"))
    ensures GetTriple(ld, e, "bx", "by", "bz") == Zero && !AllParse(ld, e, "bx", "by", "bz") ==> r == fallback
  {
    var v := GetTriple(ld, e, "bx", "by", "bz");
    if v.x == 0.0 && v.y == 0.0 && v.z == 0.0 then
      if AllParse(ld, e, "bx", "by", "bz") then Some(v) else fallback
    else Some(v)
  }

  /** An element with none of the bounding attributes has no bounding centre. */
  lemma UnboundedWithoutCentre(ld: Loaders, e: Element)
    requires ParserLaws(ld)
    requires "bx" !in e.attributes && "by" !in e.attributes && "bz" !in e.attributes
    ensures GetPlaneBoundingCentre(ld, e, None) == None
  {
    MissingAttributeFallsBack(ld, e, "bx", 0.0);
    MissingAttributeFallsBack(ld, e, "by", 0.0);
    MissingAttributeFallsBack(ld, e, "bz", 0.0);
  }

  // ---------------------------------------------------------------------------
  // Colours
  // ---------------------------------------------------------------------------

  /**
   * `getColour`: characters 1-2, 3-4 and 5-6 of the `colour` attribute read
   * as base-16 integers over 255. Any exception (a string shorter than seven
   * characters, a field `Integer.parseInt` rejects) gives black.
   */
  function GetColour(e: Element): (c: Colour)
    ensures |Attribute(e, "colour")| < 7 ==> c == Grey(0.0)
  {
    var s := Attribute(e, "colour");
    if |s| < 7 then Grey(0.0)
    else
      match (ParseInt(s[1..3], 16), ParseInt(s[3..5], 16), ParseInt(s[5..7], 16))
      case (Some(r), Some(g), Some(b)) => Colour(r as real / 255.0, g as real / 255.0, b as real / 255.0)
      case (None, _, _) => Grey(0.0)
      case (Some(_), None, _) => Grey(0.0)
      case (Some(_), Some(_), None) => Grey(0.0)
  }

  /** Only characters 1 to 6 matter: the leading `#` is never checked and anything after the sixth digit is ignored. */
  lemma ColourReadsSixCharacters(e1: Element, e2: Element)
    requires |Attribute(e1, "colour")| >= 7 && |Attribute(e2, "colour")| >= 7
    requires Attribute(e1, "colour")[1..7] == Attribute(e2, "colour")[1..7]
    ensures GetColour(e1) == GetColour(e2)
  {
    var s1, s2 := Attribute(e1, "colour"), Attribute(e2, "colour");
    forall i | 1 <= i < 7
      ensures s1[i] == s2[i]
    {
      assert s1[i] == s1[1..7][i - 1] == s2[1..7][i - 1] == s2[i];
    }
    assert s1[1..3] == s2[1..3];
    assert s1[3..5] == s2[3..5];
    assert s1[5..7] == s2[5..7];
  }

  /** Two lower-case hexadecimal digits for a byte. */
  function Hex2(n: nat): (s: string)
    requires n < 256
    ensures |s| == 2
  {
    [Digit(n / 16), Digit(n % 16)]
  }

  lemma Hex2Parses(n: nat)
    requires n < 256
    ensures ParseInt(Hex2(n), 16) == Some(n)
  {
    var s := Hex2(n);
    DigitRoundTrip(n / 16, 16);
    DigitRoundTrip(n % 16, 16);
    assert s[..1] == [s[0]];
    assert [s[0]][..0] == [];
    assert DigitsValue([s[0]], 16) == Some(n / 16);
    assert DigitsValue(s, 16) == Some(n / 16 * 16 + n % 16);
  }

  /** `#rrggbb` for three bytes. */
  function HexColour(r: nat, g: nat, b: nat): (s: string)
    requires r < 256 && g < 256 && b < 256
    ensures |s| == 7 && s[0] == '#'
  {
    "#" + Hex2(r) + Hex2(g) + Hex2(b)
  }

  /** Reading back a written colour gives each byte over 255, a channel in [0, 1]. */
  lemma ColourRoundTrip(e: Element, r: nat, g: nat, b: nat)
    requires r < 256 && g < 256 && b < 256
    requires Attribute(e, "colour") == HexColour(r, g, b)
    ensures GetColour(e) == Colour(r as real / 255.0, g as real / 255.0, b as real / 255.0)
    ensures InUnit(GetColour(e))
  {
    var s := HexColour(r, g, b);
    var hr, hg, hb := Hex2(r), Hex2(g), Hex2(b);
    assert s == "#" + hr + hg + hb;
    assert s[1] == hr[0] && s[2] == hr[1];
    assert s[3] == hg[0] && s[4] == hg[1];
    assert s[5] == hb[0] && s[6] == hb[1];
    assert s[1..3] == hr;
    assert s[3..5] == hg;
    assert s[5..7] == hb;
    Hex2Parses(r);
    Hex2Parses(g);
    Hex2Parses(b);
  }

  /** `Integer.parseInt` accepts a sign inside a field, so `#-F0000` reads as a negative red channel rather than as black. */
  lemma SignedFieldAccepted(e: Element)
    requires Attribute(e, "colour") == "#-F0000"
    ensures GetColour(e) == Colour(-15.0 / 255.0, 0.0, 0.0)
  {
    var s := Attribute(e, "colour");
    assert s[1..3] == "-F";
    assert s[3..5] == "00";
    assert s[5..7] == "00";
    assert "F"[..0] == [];
    assert DigitsValue("F", 16) == Some(15);
    assert ParseInt("-F", 16) == Some(-15);
    assert "00"[..1] == "0" && "0"[..0] == [];
    assert DigitsValue("00", 16) == Some(0);
  }

  // ---------------------------------------------------------------------------
  // File names
  // ---------------------------------------------------------------------------

  /**
   * `getString`: an empty attribute gives the fallback (null is None); a bump
   * map or texture file name gets its directory prefixed; any other text is
   * returned as it is.
   */
  function GetString(e: Element, key: string, fallback: Option<string>): (r: Option<string>)
    ensures Attribute(e, key) == "" ==> r == fallback
    ensures Attribute(e, key) != "" ==> r.Some? && |Attribute(e, key)| <= |r.value|
    ensures Attribute(e, key) != "" ==> r.value[|r.value| - |Attribute(e, key)|..] == Attribute(e, key)
    ensures Attribute(e, key) != "" && key != "bump-map" && key != "texture-map" ==> r == Some(Attribute(e, key))
  {
    var name := Attribute(e, key);
    if name == "" then fallback
    else if key == "bump-map" then Some("bump-maps/" + name)
    else if key == "texture-map" then Some("textures/" + name)
    else Some(name)
  }

  /** The directory prefixes the two kinds of map file get. */
  lemma MapDirectories(e: Element)
    requires Attribute(e, "bump-map") != "" && Attribute(e, "texture-map") != ""
    ensures GetString(e, "bump-map", None) == Some("bump-maps/" + Attribute(e, "bump-map"))
    ensures GetString(e, "texture-map", None) == Some("textures/" + Attribute(e, "texture-map"))
  {
  }

  /** A map named in the element, read from its file. */
  function TextureOf(ld: Loaders, e: Element): (t: Option<Grid<Colour>>)
    ensures t.Some? <==> Attribute(e, "texture-map") != ""
  {
    match GetString(e, "texture-map", None)
    case None => None
    case Some(name) => Some(ld.texture(name))
  }

  function BumpMapOf(ld: Loaders, e: Element): (t: Option<Grid<real>>)
    ensures t.Some? <==> Attribute(e, "bump-map") != ""
  {
    match GetString(e, "bump-map", None)
    case None => None
    case Some(name) => Some(ld.bumpMap(name))
  }

  // ---------------------------------------------------------------------------
  // Objects and lights
  // ---------------------------------------------------------------------------

  /** `v` is the attribute `key` as a number, or `fallback` when it does not parse. */
  predicate ReadOr(ld: Loaders, e: Element, key: string, fallback: real, v: real) {
    if ld.parseDouble(Attribute(e, key)).Some? then v == ld.parseDouble(Attribute(e, key)).value else v == fallback
  }

  /** `p` is the element's `x`, `y` and `z`, each 0 when it does not parse. */
  predicate PositionRead(ld: Loaders, e: Element, p: Vec3) {
    ReadOr(ld, e, "x", 0.0, p.x) && ReadOr(ld, e, "y", 0.0, p.y) && ReadOr(ld, e, "z", 0.0, p.z)
  }

  /** The Phong and reflection attributes every shape reads, with the shapes' common defaults. */
  function MaterialOf(ld: Loaders, e: Element, transmittance: Colour, refractiveIndex: real): (mat: Material)
    ensures mat.transmittance == transmittance && mat.refractiveIndex == refractiveIndex
    ensures mat.transmissive == ld.isTransmissive(transmittance)
    ensures ReadOr(ld, e, "reflectivity", DefaultReflectivity, mat.reflectivity)
    ensures ReadOr(ld, e, "kD", DefaultKD, mat.kD) && ReadOr(ld, e, "kS", DefaultKS, mat.kS)
    ensures ReadOr(ld, e, "alphaS", DefaultAlpha, mat.alpha)
  {
    Material(
      GetDouble(ld, e, "reflectivity", DefaultReflectivity), transmittance, refractiveIndex, ld.isTransmissive(transmittance),
      GetDouble(ld, e, "kD", DefaultKD), GetDouble(ld, e, "kS", DefaultKS), GetDouble(ld, e, "alphaS", DefaultAlpha))
  }

  /** A sphere reads its radius (1 by default), its maps, and its own transmittance and refractive index. */
  function SphereOf(ld: Loaders, e: Element): (o: SceneObject)
    ensures o.shape.SphereShape? && PositionRead(ld, e, o.shape.sphere.position)
    ensures ReadOr(ld, e, "radius", 1.0, o.shape.sphere.radius)
    ensures o.shape.sphere.textureMap.Some? <==> Attribute(e, "texture-map") != ""
    ensures o.shape.sphere.bumpMap.Some? <==> Attribute(e, "bump-map") != ""
    ensures o.colour == GetColour(e)
    ensures ReadOr(ld, e, "tr", 0.0, o.material.transmittance.r)
    ensures ReadOr(ld, e, "tg", 0.0, o.material.transmittance.g)
    ensures ReadOr(ld, e, "tb", 0.0, o.material.transmittance.b)
    ensures ReadOr(ld, e, "refractive_index", DefaultSphereRefractiveIndex, o.material.refractiveIndex)
  {
    var t := GetTransmittance(ld, e);
    SceneObject(
      SphereShape(Spheres.Sphere(GetPosition(ld, e), GetDouble(ld, e, "radius", 1.0), BumpMapOf(ld, e), TextureOf(ld, e))),
      GetColour(e),
      MaterialOf(ld, e, t, GetDouble(ld, e, "refractive_index", DefaultSphereRefractiveIndex)))
  }

  /** A plane object: its shape, the colour, and the scene's base transmittance and refractive index. */
  function PlaneOf(m: MathLib, ld: Loaders, e: Element): (o: SceneObject)
    ensures o.shape.PlaneShape? && o.shape.plane == PlaneFrom(m, ld, e)
    ensures o.colour == GetColour(e)
    ensures o.material.transmittance == ld.baseTransmittance && o.material.refractiveIndex == ld.baseRefractiveIndex
  {
    SceneObject(PlaneShape(PlaneFrom(m, ld, e)), GetColour(e), MaterialOf(ld, e, ld.baseTransmittance, ld.baseRefractiveIndex))
  }

  /**
   * The plane an element describes. The texture rotation and scale are only
   * stored for a textured plane, and the texture matrix is only built for a
   * plane with a map.
   */
  function PlaneFrom(m: MathLib, ld: Loaders, e: Element): (pl: Planes.Plane)
    ensures PositionRead(ld, e, pl.point) && pl.normal == GetNormal(m, ld, e)
    ensures pl.textureMap.Some? <==> Attribute(e, "texture-map") != ""
    ensures pl.bumpMap.Some? <==> Attribute(e, "bump-map") != ""
    ensures Attribute(e, "texture-map") == "" ==>
      pl.textureScale == 0.0 && pl.transformation == ld.planeMatrix(GetNormal(m, ld, e), 0.0)
    ensures Attribute(e, "texture-map") != "" ==> ReadOr(ld, e, "texture-scale", 10.0, pl.textureScale)
    ensures pl.boundingOperator == Planes.KeepOutside <==> Attribute(e, "bounding-operator") == ">"
    ensures pl.boundingRadius.Infinite? <==> ld.parseDouble(Attribute(e, "bounding-radius")).None?
    ensures pl.boundingCentre.Some? ==> pl.boundingCentre.value == GetTriple(ld, e, "bx", "by", "bz")
    ensures pl.boundingCentre.None? <==> (GetTriple(ld, e, "bx", "by", "bz") == Zero && !AllParse(ld, e, "bx", "by", "bz"))
  {
    var normal := GetNormal(m, ld, e);
    var texture := TextureOf(ld, e);
    var rotation := if texture.Some? then GetDouble(ld, e, "texture-rotation", 0.0) else 0.0;
    var scale := if texture.Some? then GetDouble(ld, e, "texture-scale", 10.0) else 0.0;
    var boundingOperator := GetString(e, "bounding-operator", Some("<")).value;
    Planes.Bounded(GetPosition(ld, e), normal, BumpMapOf(ld, e), texture, scale,
      ld.planeMatrix(normal, rotation), GetPlaneBoundingCentre(ld, e, None), GetRadius(ld, e), boundingOperator)
  }

  /** A cone object: its shape, the colour, and the scene's base transmittance and refractive index. */
  function ConeOf(m: MathLib, ld: Loaders, e: Element): (o: SceneObject)
    ensures o.shape.ConeShape? && o.shape.cone == ConeFrom(m, ld, e)
    ensures o.colour == GetColour(e)
    ensures o.material.transmittance == ld.baseTransmittance && o.material.refractiveIndex == ld.baseRefractiveIndex
  {
    SceneObject(ConeShape(ConeFrom(m, ld, e)), GetColour(e), MaterialOf(ld, e, ld.baseTransmittance, ld.baseRefractiveIndex))
  }

  /** The cone an element describes: its angle and length with the cone's defaults, and its texture. */
  function ConeFrom(m: MathLib, ld: Loaders, e: Element): (k: Cones.Cone)
    ensures PositionRead(ld, e, k.point) && k.axis == GetAxis(m, ld, e)
    ensures ReadOr(ld, e, "angle", Cones.DefaultAngle, k.angle)
    ensures ReadOr(ld, e, "length", Cones.DefaultLength, k.length)
    ensures k.textureMap.Some? <==> Attribute(e, "texture-map") != ""
  {
    Cones.NewCone(m, GetPosition(ld, e), GetAxis(m, ld, e),
      GetDouble(ld, e, "angle", Cones.DefaultAngle), GetDouble(ld, e, "length", Cones.DefaultLength), TextureOf(ld, e))
  }

  /** A cylinder object: its shape, the colour, and the scene's base transmittance and refractive index. */
  function CylinderOf(m: MathLib, ld: Loaders, e: Element): (o: SceneObject)
    ensures o.shape.CylinderShape? && o.shape.cylinder == CylinderFrom(m, ld, e)
    ensures o.colour == GetColour(e)
    ensures o.material.transmittance == ld.baseTransmittance && o.material.refractiveIndex == ld.baseRefractiveIndex
  {
    SceneObject(CylinderShape(CylinderFrom(m, ld, e)), GetColour(e), MaterialOf(ld, e, ld.baseTransmittance, ld.baseRefractiveIndex))
  }

  /** The cylinder an element describes: its length and radius with the cylinder's defaults, and its texture. */
  function CylinderFrom(m: MathLib, ld: Loaders, e: Element): (y: Cylinders.Cylinder)
    ensures PositionRead(ld, e, y.point) && y.axis == GetAxis(m, ld, e)
    ensures ReadOr(ld, e, "length", Cylinders.DefaultLength, y.length)
    ensures ReadOr(ld, e, "radius", Cylinders.DefaultRadius, y.radius)
    ensures y.textureMap.Some? <==> Attribute(e, "texture-map") != ""
  {
    Cylinders.NewCylinder(m, GetPosition(ld, e), GetAxis(m, ld, e),
      GetDouble(ld, e, "length", Cylinders.DefaultLength), GetDouble(ld, e, "radius", Cylinders.DefaultRadius), TextureOf(ld, e))
  }

  /** A point light's intensity is 100 unless the element gives one. */
  function LightOf(ld: Loaders, e: Element): (l: PointLight)
    ensures PositionRead(ld, e, l.position) && l.colour == GetColour(e)
    ensures ReadOr(ld, e, "intensity", 100.0, l.intensity)
  {
    PointLight(GetPosition(ld, e), GetColour(e), GetDouble(ld, e, "intensity", 100.0))
  }

  /** The object an element describes, if it names a shape. */
  function ObjectOf(m: MathLib, ld: Loaders, e: Element): (o: Option<SceneObject>)
    ensures o.Some? <==> e.name in {"sphere", "plane", "cone", "cylinder"}
  {
    if e.name == "sphere" then Some(SphereOf(ld, e))
    else if e.name == "plane" then Some(PlaneOf(m, ld, e))
    else if e.name == "cone" then Some(ConeOf(m, ld, e))
    else if e.name == "cylinder" then Some(CylinderOf(m, ld, e))
    else None
  }

  predicate KnownTag(name: string) {
    name in {"camera", "sphere", "plane", "cone", "cylinder", "point-light", "ambient-light", "background-colour"}
  }

  /**
   * One step of the loading loop: the element changes the scene as its tag
   * says, and an unknown tag is the `RuntimeException` that ends loading.
   */
  function LoadElement(m: MathLib, ld: Loaders, s: Scene<SceneObject>, e: Element): (r: Result<Scene<SceneObject>, string>)
    ensures r.Err? <==> !KnownTag(e.name)
    ensures r.Ok? && ObjectOf(m, ld, e).Some? ==> r.value.objects == s.objects + [ObjectOf(m, ld, e).value]
    ensures r.Ok? && ObjectOf(m, ld, e).None? ==> r.value.objects == s.objects
    ensures r.Ok? && e.name == "point-light" ==> r.value.pointLights == s.pointLights + [LightOf(ld, e)]
    ensures r.Ok? && e.name != "point-light" ==> r.value.pointLights == s.pointLights
  {
    if e.name == "camera" then
      Ok(s.(cameraOrigin := GetPosition(ld, e), cameraRotation := GetRotation(ld, e)))
    else if e.name == "sphere" then Ok(AddObject(s, SphereOf(ld, e)))
    else if e.name == "plane" then Ok(AddObject(s, PlaneOf(m, ld, e)))
    else if e.name == "cone" then Ok(AddObject(s, ConeOf(m, ld, e)))
    else if e.name == "cylinder" then Ok(AddObject(s, CylinderOf(m, ld, e)))
    else if e.name == "point-light" then Ok(AddPointLight(s, LightOf(ld, e)))
    else if e.name == "ambient-light" then
      Ok(s.(ambientLight := CScale(GetColour(e), GetDouble(ld, e, "intensity", 1.0))))
    else if e.name == "background-colour" then Ok(s.(backgroundColour := GetColour(e)))
    else Err("unknown object tag: " + e.name)
  }

  /** The objects the elements describe, in document order: one per shape element. */
  function ObjectsOf(m: MathLib, ld: Loaders, es: seq<Element>): seq<SceneObject>
    decreases |es|
  {
    if |es| == 0 then []
    else
      var last := es[|es| - 1];
      ObjectsOf(m, ld, es[..|es| - 1]) + (if ObjectOf(m, ld, last).Some? then [ObjectOf(m, ld, last).value] else [])
  }

  /** The lights the elements describe, in document order: one per `point-light` element. */
  function LightsOf(ld: Loaders, es: seq<Element>): seq<PointLight>
    decreases |es|
  {
    if |es| == 0 then []
    else
      var last := es[|es| - 1];
      LightsOf(ld, es[..|es| - 1]) + (if last.name == "point-light" then [LightOf(ld, last)] else [])
  }

  /** Every element's tag is one the loader knows. */
  predicate AllTagsKnown(es: seq<Element>) {
    forall i :: 0 <= i < |es| ==> KnownTag(es[i].name)
  }

  /** The tags are all known when those of the prefix and of the last element are. */
  lemma AllTagsKnownSplit(es: seq<Element>)
    requires |es| > 0
    ensures AllTagsKnown(es) <==> AllTagsKnown(es[..|es| - 1]) && KnownTag(es[|es| - 1].name)
  {
    var p := es[..|es| - 1];
    assert forall i :: 0 <= i < |p| ==> p[i] == es[i];
  }

  /**
   * The loop over the file's elements in document order, from a fresh scene,
   * stopping at the first error. It fails exactly when some element has an
   * unknown tag, and a scene that loads holds one object per shape element and
   * one light per light element, in document order.
   */
  function LoadElements(m: MathLib, ld: Loaders, es: seq<Element>): (r: Result<Scene<SceneObject>, string>)
    ensures r.Err? <==> !AllTagsKnown(es)
    ensures r.Ok? ==> r.value.objects == ObjectsOf(m, ld, es) && r.value.pointLights == LightsOf(ld, es)
    decreases |es|
  {
    if |es| == 0 then Ok(NewScene())
    else
      AllTagsKnownSplit(es);
      match LoadElements(m, ld, es[..|es| - 1])
      case Err(msg) => Err(msg)
      case Ok(s) => LoadElement(m, ld, s, es[|es| - 1])
  }

  /** The error names the first element with an unknown tag. */
  lemma {:induction false} LoadElementsFirstError(m: MathLib, ld: Loaders, es: seq<Element>, k: int)
    requires 0 <= k < |es| && !KnownTag(es[k].name)
    requires AllTagsKnown(es[..k])
    ensures LoadElements(m, ld, es) == Err("unknown object tag: " + es[k].name)
    decreases |es|
  {
    var n := |es| - 1;
    var p := es[..n];
    if k < n {
      assert p[..k] == es[..k];
      LoadElementsFirstError(m, ld, p, k);
    } else {
      assert p == es[..k];
    }
  }
}
