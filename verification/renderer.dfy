/**
 * The recursive light transport of the renderer: for a ray, the colour seen
 * along it, made of the local Phong illumination at the nearest hit and of
 * the colours traced along the reflected and refracted rays, weighted by
 * the surface's transmittance and a Fresnel-Schlick reflectivity.
 *
 * Everything the renderer asks of the objects and lights it does not compute
 * itself is a parameter of the `World`: each object's intersection test and
 * material, its diffuse colour at a point, a light's intensity at a distance,
 * and the random offsets of the shadow-ray samples.
 */
module Rendering {
  import opened Results
  import opened JavaMath
  import opened Vectors
  import opened Colours
  import opened Rays
  import opened RaycastHit

  /** How far reflected, refracted and shadow rays start off the surface. */
  const Epsilon: real := 0.0001

  /** Shadow rays cast towards each light. */
  const ShadowRayCount: nat := 1

  /** The radius of the ball the shadow-ray targets are jittered in. */
  const LightSize: real := 0.00000001

  /** What the renderer reads from a scene object besides its geometry. */
  datatype Material = Material(
    reflectivity: real,
    transmittance: Colour,
    refractiveIndex: real,
    transmissive: bool,
    kD: real,
    kS: real,
    alpha: real)

  /**
   * The scene and the renderer's background colour, with the object and
   * light behaviour the renderer calls: `intersect(ray)(o)` is object `o`'s
   * hit by `ray`, `jitter(light, p, j)` the random point in the unit ball for
   * the `j`-th shadow ray from `p` towards `light`.
   */
  datatype World<!O> = World(
    scene: Scene<O>,
    background: Colour,
    intersect: Ray -> O -> Hit<O>,
    material: O -> Material,
    colourAt: (O, Vec3) -> Colour,
    illuminationAt: (PointLight, real) -> Colour,
    jitter: (PointLight, Vec3, nat) -> Vec3)

  /** The nearest hit of a ray in the scene. */
  function ClosestHit<O>(w: World<O>, ray: Ray): Hit<O> {
    FindClosestIntersection(w.scene, w.intersect(ray))
  }

  function TransmittanceOf<O>(w: World<O>): O -> Colour {
    o => w.material(o).transmittance
  }

  /** The product of the transmittances of the objects the ray meets strictly before distance `d`. */
  function CompoundAlong<O>(w: World<O>, ray: Ray, d: real): Colour {
    FindCompoundTransmittance(w.scene, w.intersect(ray), TransmittanceOf(w), d)
  }

  /** `new ColorRGB(1).subtract(c)`. */
  function Complement(c: Colour): Colour {
    CSub(Grey(1.0), c)
  }

  // ---------------------------------------------------------------------------
  // Local illumination
  // ---------------------------------------------------------------------------

  /** The `j`-th shadow-ray target: the light's position moved by a jitter scaled to the light's size. */
  function SampleTarget<O>(w: World<O>, light: PointLight, p: Vec3, j: nat): Vec3 {
    Add(light.position, Scale(w.jitter(light, p, j), LightSize))
  }

  /** The ray from just off the surface towards the `j`-th target, in the medium the surface is seen from. */
  function ShadowRay<O>(m: MathLib, w: World<O>, light: PointLight, p: Vec3, n: Vec3, index: real, j: nat): Ray {
    Ray(Add(p, Scale(n, Epsilon)), Normalised(m, Sub(SampleTarget(w, light, p, j), p)), index)
  }

  /**
   * The light the `j`-th shadow ray loses: nothing unless the nearest hit
   * along it is no farther than its target, and otherwise the complement of
   * the compound transmittance up to the target.
   */
  function Blocked<O>(m: MathLib, w: World<O>, light: PointLight, p: Vec3, n: Vec3, index: real, j: nat): (r: Colour)
    ensures !Obstructed(m, w, light, p, n, index, j) ==> r == Grey(0.0)
  {
    var ray := ShadowRay(m, w, light, p, n, index, j);
    var d := Magnitude(m, Sub(SampleTarget(w, light, p, j), p));
    if Obstructed(m, w, light, p, n, index, j) then Complement(CompoundAlong(w, ray, d)) else Grey(0.0)
  }

  /** None of the first `k` shadow rays is obstructed. */
  predicate Unobstructed<O>(m: MathLib, w: World<O>, light: PointLight, p: Vec3, n: Vec3, index: real, k: nat) {
    forall j: nat :: j < k ==> !Obstructed(m, w, light, p, n, index, j)
  }

  /** The nearest hit along the `j`-th shadow ray is no farther than its target. */
  predicate Obstructed<O>(m: MathLib, w: World<O>, light: PointLight, p: Vec3, n: Vec3, index: real, j: nat) {
    NoFartherThan(ClosestHit(w, ShadowRay(m, w, light, p, n, index, j)).GetDistance(),
                  Magnitude(m, Sub(SampleTarget(w, light, p, j), p)))
  }

  /** The light lost by the first `k` shadow rays together. */
  function TotalBlocked<O>(m: MathLib, w: World<O>, light: PointLight, p: Vec3, n: Vec3, index: real, k: nat): Colour
    decreases k
  {
    if k == 0 then Grey(0.0) else CAdd(TotalBlocked(m, w, light, p, n, index, k - 1), Blocked(m, w, light, p, n, index, k - 1))
  }

  /**
   * The fraction of the light that reaches the point: one minus the average
   * loss over the shadow rays, so all of it when no shadow ray is obstructed.
   */
  function PassThrough<O>(m: MathLib, w: World<O>, light: PointLight, p: Vec3, n: Vec3, index: real): (r: Colour)
    ensures Unobstructed(m, w, light, p, n, index, ShadowRayCount) ==> r == Grey(1.0)
  {
    if Unobstructed(m, w, light, p, n, index, ShadowRayCount) then
      AverageLossNone(m, w, light, p, n, index, ShadowRayCount);
      AveragePass(m, w, light, p, n, index, ShadowRayCount)
    else AveragePass(m, w, light, p, n, index, ShadowRayCount)
  }

  /** One minus the average loss over the first `k` shadow rays. */
  function AveragePass<O>(m: MathLib, w: World<O>, light: PointLight, p: Vec3, n: Vec3, index: real, k: nat): Colour {
    if k == 0 then Grey(1.0) else Complement(CScale(TotalBlocked(m, w, light, p, n, index, k), 1.0 / (k as real)))
  }

  /** The Phong specular term of one light, added only when the reflected light direction faces the viewer. */
  function Specular<O>(m: MathLib, w: World<O>, o: O, p: Vec3, n: Vec3, eye: Vec3, index: real, light: PointLight): Colour {
    var toLight := Sub(light.position, p);
    var i := w.illuminationAt(light, Magnitude(m, toLight));
    var l := Normalised(m, toLight);
    var rv := Dot(ReflectIn(l, n), Normalised(m, Sub(eye, p)));
    if rv > 0.0 then
      CMul(CScale(CScale(CMul(light.colour, i), w.material(o).kS), m.pow(rv, w.material(o).alpha)), PassThrough(m, w, light, p, n, index))
    else Grey(0.0)
  }

  /** The Lambert diffuse term of one light, added only when the light is in front of the surface. */
  function Diffuse<O>(m: MathLib, w: World<O>, o: O, p: Vec3, n: Vec3, index: real, light: PointLight): Colour {
    var toLight := Sub(light.position, p);
    var i := w.illuminationAt(light, Magnitude(m, toLight));
    var ln := Dot(Normalised(m, toLight), n);
    if ln > 0.0 then
      CMul(CScale(CScale(CMul(w.colourAt(o, p), i), w.material(o).kD), ln), PassThrough(m, w, light, p, n, index))
    else Grey(0.0)
  }

  /** One light's specular and diffuse terms. */
  function LightTerm<O>(m: MathLib, w: World<O>, o: O, p: Vec3, n: Vec3, eye: Vec3, index: real, light: PointLight): Colour {
    CAdd(Specular(m, w, o, p, n, eye, index, light), Diffuse(m, w, o, p, n, index, light))
  }

  /** Colours summed in list order. */
  function SumOver<T>(xs: seq<T>, f: T -> Colour): Colour
    decreases |xs|
  {
    if |xs| == 0 then Grey(0.0) else CAdd(SumOver(xs[..|xs| - 1], f), f(xs[|xs| - 1]))
  }

  /** A sum of zeros is zero. */
  lemma {:induction false} SumOverZero<T>(xs: seq<T>, f: T -> Colour)
    requires forall i :: 0 <= i < |xs| ==> f(xs[i]) == Grey(0.0)
    ensures SumOver(xs, f) == Grey(0.0)
    decreases |xs|
  {
    if |xs| > 0 {
      var k := |xs| - 1;
      assert forall i :: 0 <= i < k ==> xs[..k][i] == xs[i];
      SumOverZero(xs[..k], f);
      assert f(xs[k]) == Grey(0.0);
      assert SumOver(xs, f) == CAdd(SumOver(xs[..k], f), f(xs[k]));
    }
  }

  /**
   * `illuminate`: the ambient term, then every light's specular and diffuse
   * terms. Without lights only the ambient term is left: the diffuse colour
   * times the ambient light.
   */
  function Illuminate<O>(m: MathLib, w: World<O>, o: O, p: Vec3, n: Vec3, eye: Vec3, index: real): (r: Colour)
    ensures w.scene.pointLights == [] ==> r == CMul(w.colourAt(o, p), w.scene.ambientLight)
  {
    CAdd(CMul(w.colourAt(o, p), w.scene.ambientLight), SumOver(w.scene.pointLights, LightTerms(m, w, o, p, n, eye, index)))
  }

  /** Every light's terms at the point, as a function of the light. */
  function LightTerms<O>(m: MathLib, w: World<O>, o: O, p: Vec3, n: Vec3, eye: Vec3, index: real): PointLight -> Colour {
    light => LightTerm(m, w, o, p, n, eye, index, light)
  }

  /** `w` with one more light, as `addPointLight` gives. */
  function WithLight<O>(w: World<O>, l: PointLight): World<O> {
    w.(scene := AddPointLight(w.scene, l))
  }

  /**
   * Lights add up: adding a light to the scene adds exactly that light's
   * specular and diffuse terms to the illumination of every point, and
   * leaves every other light's terms as they were, since shadows depend on
   * the objects alone.
   */
  lemma IlluminateAddLight<O>(m: MathLib, w: World<O>, l: PointLight, o: O, p: Vec3, n: Vec3, eye: Vec3, index: real)
    ensures Illuminate(m, WithLight(w, l), o, p, n, eye, index)
         == CAdd(Illuminate(m, w, o, p, n, eye, index), LightTerm(m, w, o, p, n, eye, index, l))
  {
    var w' := WithLight(w, l);
    var f := LightTerms(m, w, o, p, n, eye, index);
    var f' := LightTerms(m, w', o, p, n, eye, index);
    var lights := w.scene.pointLights;
    forall light | light in lights + [l]
      ensures f'(light) == f(light)
    {
      LightTermSameObjects(m, w, w', o, p, n, eye, index, light);
    }
    assert w'.scene.pointLights == lights + [l];
    SumOverAgrees(lights + [l], f', f);
    assert (lights + [l])[..|lights|] == lights;
    var a, s, t := CMul(w.colourAt(o, p), w.scene.ambientLight), SumOver(lights, f), f(l);
    assert SumOver(lights + [l], f) == CAdd(s, t);
    assert Illuminate(m, w', o, p, n, eye, index) == CAdd(a, CAdd(s, t));
    assert Illuminate(m, w, o, p, n, eye, index) == CAdd(a, s);
    assert t == LightTerm(m, w, o, p, n, eye, index, l);
    CAddAssociative(a, s, t);
  }

  lemma CAddAssociative(a: Colour, b: Colour, c: Colour)
    ensures CAdd(a, CAdd(b, c)) == CAdd(CAdd(a, b), c)
  {
  }

  /** Sums of two functions that agree on the list are equal. */
  lemma {:induction false} SumOverAgrees<T>(xs: seq<T>, f: T -> Colour, g: T -> Colour)
    requires forall x :: x in xs ==> f(x) == g(x)
    ensures SumOver(xs, f) == SumOver(xs, g)
    decreases |xs|
  {
    if |xs| > 0 {
      var k := |xs| - 1;
      assert forall x :: x in xs[..k] ==> x in xs;
      SumOverAgrees(xs[..k], f, g);
      assert xs[k] in xs;
    }
  }

  /** One light's terms depend on the scene only through its objects. */
  lemma LightTermSameObjects<O>(m: MathLib, w: World<O>, w': World<O>, o: O, p: Vec3, n: Vec3, eye: Vec3, index: real, light: PointLight)
    requires w'.scene.objects == w.scene.objects
    requires w' == w.(scene := w'.scene)
    ensures LightTerm(m, w', o, p, n, eye, index, light) == LightTerm(m, w, o, p, n, eye, index, light)
  {
    PassThroughSameObjects(m, w, w', light, p, n, index);
    SpecularSamePass(m, w, w', o, p, n, eye, index, light);
    DiffuseSamePass(m, w, w', o, p, n, index, light);
  }

  lemma SpecularSamePass<O>(m: MathLib, w: World<O>, w': World<O>, o: O, p: Vec3, n: Vec3, eye: Vec3, index: real, light: PointLight)
    requires w'.illuminationAt == w.illuminationAt && w'.material == w.material
    requires PassThrough(m, w', light, p, n, index) == PassThrough(m, w, light, p, n, index)
    ensures Specular(m, w', o, p, n, eye, index, light) == Specular(m, w, o, p, n, eye, index, light)
  {
  }

  lemma DiffuseSamePass<O>(m: MathLib, w: World<O>, w': World<O>, o: O, p: Vec3, n: Vec3, index: real, light: PointLight)
    requires w'.illuminationAt == w.illuminationAt && w'.material == w.material && w'.colourAt == w.colourAt
    requires PassThrough(m, w', light, p, n, index) == PassThrough(m, w, light, p, n, index)
    ensures Diffuse(m, w', o, p, n, index, light) == Diffuse(m, w, o, p, n, index, light)
  {
  }

  lemma PassThroughSameObjects<O>(m: MathLib, w: World<O>, w': World<O>, light: PointLight, p: Vec3, n: Vec3, index: real)
    requires w'.scene.objects == w.scene.objects
    requires w' == w.(scene := w'.scene)
    ensures PassThrough(m, w', light, p, n, index) == PassThrough(m, w, light, p, n, index)
  {
    TotalBlockedSameObjects(m, w, w', light, p, n, index, ShadowRayCount);
    forall j: nat | j < ShadowRayCount
      ensures Obstructed(m, w', light, p, n, index, j) == Obstructed(m, w, light, p, n, index, j)
    {
      var ray := ShadowRay(m, w, light, p, n, index, j);
      assert ShadowRay(m, w', light, p, n, index, j) == ray;
      assert HitsOf(w'.scene.objects, w'.intersect(ray)) == HitsOf(w.scene.objects, w.intersect(ray));
      assert ClosestHit(w', ray) == ClosestHit(w, ray);
    }
    assert Unobstructed(m, w', light, p, n, index, ShadowRayCount) == Unobstructed(m, w, light, p, n, index, ShadowRayCount);
  }

  lemma TotalBlockedSameObjects<O>(m: MathLib, w: World<O>, w': World<O>, light: PointLight, p: Vec3, n: Vec3, index: real, k: nat)
    requires w'.scene.objects == w.scene.objects
    requires w' == w.(scene := w'.scene)
    ensures TotalBlocked(m, w', light, p, n, index, k) == TotalBlocked(m, w, light, p, n, index, k)
  {
    forall j: nat | j < k
      ensures Blocked(m, w', light, p, n, index, j) == Blocked(m, w, light, p, n, index, j)
    {
      BlockedSameObjects(m, w, w', light, p, n, index, j);
    }
    LossesAgree(m, w, w', light, p, n, index, k);
  }

  /** Two worlds whose first `k` shadow rays lose the same light lose the same in total. */
  lemma {:induction false} LossesAgree<O>(m: MathLib, w: World<O>, w': World<O>, light: PointLight, p: Vec3, n: Vec3, index: real, k: nat)
    requires forall j: nat :: j < k ==> Blocked(m, w', light, p, n, index, j) == Blocked(m, w, light, p, n, index, j)
    ensures TotalBlocked(m, w', light, p, n, index, k) == TotalBlocked(m, w, light, p, n, index, k)
    decreases k
  {
    if k > 0 {
      LossesAgree(m, w, w', light, p, n, index, k - 1);
    }
  }

  lemma BlockedSameObjects<O>(m: MathLib, w: World<O>, w': World<O>, light: PointLight, p: Vec3, n: Vec3, index: real, j: nat)
    requires w'.scene.objects == w.scene.objects
    requires w' == w.(scene := w'.scene)
    ensures Blocked(m, w', light, p, n, index, j) == Blocked(m, w, light, p, n, index, j)
  {
    var ray := ShadowRay(m, w, light, p, n, index, j);
    assert ShadowRay(m, w', light, p, n, index, j) == ray;
    assert HitsOf(w'.scene.objects, w'.intersect(ray)) == HitsOf(w.scene.objects, w.intersect(ray));
    assert ClosestHit(w', ray) == ClosestHit(w, ray);
    var d := Magnitude(m, Sub(SampleTarget(w, light, p, j), p));
    assert CompoundAlong(w', ray, d) == CompoundAlong(w, ray, d);
  }

  /** A light behind the surface and reflecting away from the viewer. */
  predicate Unlit<O>(m: MathLib, w: World<O>, p: Vec3, n: Vec3, eye: Vec3, light: PointLight) {
    var l := Normalised(m, Sub(light.position, p));
    Dot(ReflectIn(l, n), Normalised(m, Sub(eye, p))) <= 0.0 && Dot(l, n) <= 0.0
  }

  /** Such a light adds neither a specular nor a diffuse term, whatever blocks it. */
  lemma LightTermUnlit<O>(m: MathLib, w: World<O>, o: O, p: Vec3, n: Vec3, eye: Vec3, index: real, light: PointLight)
    requires Unlit(m, w, p, n, eye, light)
    ensures LightTerm(m, w, o, p, n, eye, index, light) == Grey(0.0)
  {
  }

  /** When every light is unlit at the point, the illumination is the ambient term alone. */
  lemma IlluminateUnlit<O>(m: MathLib, w: World<O>, o: O, p: Vec3, n: Vec3, eye: Vec3, index: real)
    requires forall i :: 0 <= i < |w.scene.pointLights| ==> Unlit(m, w, p, n, eye, w.scene.pointLights[i])
    ensures Illuminate(m, w, o, p, n, eye, index) == CMul(w.colourAt(o, p), w.scene.ambientLight)
  {
    var lights := w.scene.pointLights;
    var f := LightTerms(m, w, o, p, n, eye, index);
    forall i | 0 <= i < |lights|
      ensures f(lights[i]) == Grey(0.0)
    {
      LightTermUnlit(m, w, o, p, n, eye, index, lights[i]);
    }
    SumOverZero(lights, f);
  }

  lemma AverageLossNone<O>(m: MathLib, w: World<O>, light: PointLight, p: Vec3, n: Vec3, index: real, k: nat)
    requires Unobstructed(m, w, light, p, n, index, k)
    ensures AveragePass(m, w, light, p, n, index, k) == Grey(1.0)
  {
    if k > 0 {
      TotalBlockedUnobstructed(m, w, light, p, n, index, k);
      NothingBlockedPasses(TotalBlocked(m, w, light, p, n, index, k), 1.0 / (k as real));
    }
  }

  lemma NothingBlockedPasses(t: Colour, k: real)
    requires t == Grey(0.0)
    ensures Complement(CScale(t, k)) == Grey(1.0)
  {
    assert t.r == 0.0 && t.g == 0.0 && t.b == 0.0;
    assert CScale(t, k) == Grey(0.0);
  }

  lemma {:induction false} TotalBlockedUnobstructed<O>(m: MathLib, w: World<O>, light: PointLight, p: Vec3, n: Vec3, index: real, k: nat)
    requires forall j: nat :: j < k ==> !Obstructed(m, w, light, p, n, index, j)
    ensures TotalBlocked(m, w, light, p, n, index, k) == Grey(0.0)
    decreases k
  {
    if k > 0 {
      TotalBlockedUnobstructed(m, w, light, p, n, index, k - 1);
    }
  }

  /** With every transmittance a fraction in each channel, shadows only dim a light: the pass-through is in [0, 1]. */
  lemma PassThroughInUnit<O>(m: MathLib, w: World<O>, light: PointLight, p: Vec3, n: Vec3, index: real)
    requires forall o :: InUnit(w.material(o).transmittance)
    ensures InUnit(PassThrough(m, w, light, p, n, index))
  {
    AveragePassInUnit(m, w, light, p, n, index, ShadowRayCount);
  }

  lemma AveragePassInUnit<O>(m: MathLib, w: World<O>, light: PointLight, p: Vec3, n: Vec3, index: real, k: nat)
    requires forall o :: InUnit(w.material(o).transmittance)
    ensures InUnit(AveragePass(m, w, light, p, n, index, k))
  {
    if k > 0 {
      TotalBlockedBounds(m, w, light, p, n, index, k);
      AverageLossInUnit(TotalBlocked(m, w, light, p, n, index, k), k as real);
    }
  }

  /** The average of losses that add up to at most `k` in each channel leaves a fraction of the light. */
  lemma AverageLossInUnit(t: Colour, k: real)
    requires k > 0.0 && 0.0 <= t.r <= k && 0.0 <= t.g <= k && 0.0 <= t.b <= k
    ensures InUnit(Complement(CScale(t, 1.0 / k)))
  {
    var q := 1.0 / k;
    assert q > 0.0;
    assert q * k == 1.0;
    assert 0.0 <= q * t.r <= q * k;
    assert 0.0 <= q * t.g <= q * k;
    assert 0.0 <= q * t.b <= q * k;
  }

  lemma TotalBlockedBounds<O>(m: MathLib, w: World<O>, light: PointLight, p: Vec3, n: Vec3, index: real, k: nat)
    requires forall o :: InUnit(w.material(o).transmittance)
    ensures var t := TotalBlocked(m, w, light, p, n, index, k);
      0.0 <= t.r <= k as real && 0.0 <= t.g <= k as real && 0.0 <= t.b <= k as real
  {
    forall j: nat | j < k
      ensures InUnit(Blocked(m, w, light, p, n, index, j))
    {
      BlockedInUnit(m, w, light, p, n, index, j);
    }
    LossesBounded(m, w, light, p, n, index, k);
  }

  /** Adding up `k` losses each in [0, 1] gives at most `k` in each channel. */
  lemma {:induction false} LossesBounded<O>(m: MathLib, w: World<O>, light: PointLight, p: Vec3, n: Vec3, index: real, k: nat)
    requires forall j: nat :: j < k ==> InUnit(Blocked(m, w, light, p, n, index, j))
    ensures var t := TotalBlocked(m, w, light, p, n, index, k);
      0.0 <= t.r <= k as real && 0.0 <= t.g <= k as real && 0.0 <= t.b <= k as real
    decreases k
  {
    if k > 0 {
      LossesBounded(m, w, light, p, n, index, k - 1);
      AddedLossBounds(TotalBlocked(m, w, light, p, n, index, k - 1), Blocked(m, w, light, p, n, index, k - 1), (k - 1) as real);
    }
  }

  lemma AddedLossBounds(total: Colour, c: Colour, k: real)
    requires 0.0 <= total.r <= k && 0.0 <= total.g <= k && 0.0 <= total.b <= k
    requires InUnit(c)
    ensures var t := CAdd(total, c);
      0.0 <= t.r <= k + 1.0 && 0.0 <= t.g <= k + 1.0 && 0.0 <= t.b <= k + 1.0
  {
  }

  lemma BlockedInUnit<O>(m: MathLib, w: World<O>, light: PointLight, p: Vec3, n: Vec3, index: real, j: nat)
    requires forall o :: InUnit(w.material(o).transmittance)
    ensures InUnit(Blocked(m, w, light, p, n, index, j))
  {
    var ray := ShadowRay(m, w, light, p, n, index, j);
    var d := Magnitude(m, Sub(SampleTarget(w, light, p, j), p));
    var t := TransmittanceOf(w);
    var hits := HitsOf(w.scene.objects, w.intersect(ray));
    assert forall o :: InUnit(t(o));
    TransmitsInUnit(hits, t);
    CompoundInUnit(hits, t, d);
  }

  // ---------------------------------------------------------------------------
  // Snell's law and Schlick's approximation
  // ---------------------------------------------------------------------------

  /** The index of the medium the refracted ray enters: air when the ray is already inside the object's medium. */
  function ExitIndex(current: real, objectIndex: real): real {
    if current == objectIndex then 1.0 else objectIndex
  }

  /** `-I·N`, negated again when the normal faces the wrong way, so never negative. */
  function CosIncidence(i: Vec3, n: Vec3): (c: real)
    ensures c >= 0.0
    ensures c == Dot(i, n) || c == -Dot(i, n)
  {
    var c := -Dot(i, n);
    if c < 0.0 then -c else c
  }

  /** For a unit incoming direction and a unit normal the cosine lies in [0, 1]. */
  lemma CosIncidenceInUnit(i: Vec3, n: Vec3)
    requires NormSq(i) == 1.0 && NormSq(n) == 1.0
    ensures 0.0 <= CosIncidence(i, n) <= 1.0
  {
    DotUnitBound(i, n);
  }

  /** `sin θR`: the root of `ratio² (1 - cos² θI)`, clamped below at 0. */
  function SinRefracted(m: MathLib, ratio: real, cosI: real): real {
    m.sqrt(Max(0.0, Square(ratio) * (1.0 - Square(cosI))))
  }

  /** `cos θR`: the root of `1 - sin² θR`, clamped below at 0. */
  function CosRefracted(m: MathLib, sinR: real): real {
    m.sqrt(Max(0.0, 1.0 - Square(sinR)))
  }

  function Max(a: real, b: real): real {
    if a >= b then a else b
  }

  /** Total internal reflection: the refracted sine's square exceeds 1. */
  predicate TotallyReflected(m: MathLib, ratio: real, cosI: real) {
    Square(SinRefracted(m, ratio, cosI)) > 1.0
  }

  /** Past the critical angle: Snell's law would need `sin θR = ratio · sin θI` above 1. */
  predicate PastCriticalAngle(ratio: real, cosI: real) {
    Square(ratio) * (1.0 - Square(cosI)) > 1.0
  }

  /** The test on the square root's square is the test on Snell's quantity `ratio² sin² θI` itself. */
  lemma TotallyReflectedMeaning(m: MathLib, ratio: real, cosI: real)
    ensures SqrtLaws(m) ==> (TotallyReflected(m, ratio, cosI) <==> PastCriticalAngle(ratio, cosI))
  {
    if SqrtLaws(m) {
      var x := Max(0.0, Square(ratio) * (1.0 - Square(cosI)));
      assert m.sqrt(x) * m.sqrt(x) == x;
    }
  }

  /** Schlick's approximation of the Fresnel reflectance from the base reflectivity. */
  function Schlick(r: real, cosI: real): real {
    r + (1.0 - r) * Pow5(1.0 - cosI)
  }

  /** For a base reflectivity and a cosine in [0, 1] the reflectance lies between the base and 1: the base at normal incidence, 1 at grazing incidence. */
  lemma SchlickBounds(r: real, cosI: real)
    requires 0.0 <= r <= 1.0 && 0.0 <= cosI <= 1.0
    ensures r <= Schlick(r, cosI) <= 1.0
    ensures cosI == 1.0 ==> Schlick(r, cosI) == r
    ensures cosI == 0.0 ==> Schlick(r, cosI) == 1.0
  {
    var x := 1.0 - cosI;
    Pow5InUnit(x);
    UnitProduct(1.0 - r, Pow5(x));
    assert (1.0 - r) * Pow5(x) <= (1.0 - r) by {
      NonNegativeProduct(1.0 - r, 1.0 - Pow5(x));
    }
  }

  lemma Pow5InUnit(x: real)
    requires 0.0 <= x <= 1.0
    ensures 0.0 <= Pow5(x) <= 1.0
  {
    UnitProduct(x, x);
    UnitProduct(x * x, x);
    UnitProduct(x * x * x, x);
    UnitProduct(x * x * x * x, x);
  }

  // ---------------------------------------------------------------------------
  // One step of the tracer
  // ---------------------------------------------------------------------------

  /** What happens to the light the surface transmits. */
  datatype Refraction =
    | NoRefraction
    | TotalInternal(reflected: Ray)
    | Refracted(refracted: Ray)

  /**
   * The non-recursive part of `trace`, apart from the local illumination: a
   * miss, or the surface hit, its transmittance and reflectance, and the rays
   * to be traced further.
   */
  datatype Plan<O> =
    | Escape
    | Shade(target: O, location: Vec3, normal: Vec3, transmittance: Colour, fresnel: real, refraction: Refraction, reflection: Option<Ray>)

  /** `O - P` reflected in the normal and normalised: the mirror direction. */
  function MirrorDirection(m: MathLib, eye: Vec3, p: Vec3, n: Vec3): Vec3 {
    Normalised(m, ReflectIn(Sub(eye, p), n))
  }

  /** The unit direction from the ray's origin to the hit. */
  function Incoming(m: MathLib, ray: Ray, p: Vec3): Vec3 {
    Normalised(m, Sub(p, ray.origin))
  }

  /**
   * The refraction at a transmissive surface, by the vector form of Snell's
   * law. An object index of 0 makes Java's index ratio infinite, so that
   * every ray not along the normal is totally reflected; the model reflects
   * every ray in that case.
   */
  function RefractionAt(m: MathLib, ray: Ray, objectIndex: real, p: Vec3, n: Vec3): (r: Refraction)
    ensures !r.NoRefraction?
    ensures r.TotalInternal? ==> r.reflected == Ray(Add(p, Scale(n, Epsilon)), MirrorDirection(m, ray.origin, p, n), ray.refractiveIndex)
    ensures r.Refracted? ==> r.refracted.origin == Add(p, Scale(n, -Epsilon))
    ensures r.Refracted? ==> r.refracted.refractiveIndex == ExitIndex(ray.refractiveIndex, objectIndex)
    ensures SqrtLaws(m) ==>
      var next := ExitIndex(ray.refractiveIndex, objectIndex);
      (r.TotalInternal? <==> next == 0.0 || PastCriticalAngle(ray.refractiveIndex / next, CosIncidence(Incoming(m, ray, p), n)))
  {
    var next := ExitIndex(ray.refractiveIndex, objectIndex);
    TotallyReflectedMeaning(m, if next == 0.0 then 0.0 else ray.refractiveIndex / next, CosIncidence(Incoming(m, ray, p), n));
    var i := Incoming(m, ray, p);
    var cosI := CosIncidence(i, n);
    if next == 0.0 || TotallyReflected(m, ray.refractiveIndex / next, cosI) then
      TotalInternal(Ray(Add(p, Scale(n, Epsilon)), MirrorDirection(m, ray.origin, p, n), ray.refractiveIndex))
    else
      var ratio := ray.refractiveIndex / next;
      var v := Add(Scale(i, ratio), Scale(n, ratio * cosI - CosRefracted(m, SinRefracted(m, ratio, cosI))));
      Refracted(Ray(Add(p, Scale(n, -Epsilon)), Normalised(m, v), next))
  }

  /** The plan for a ray with `b` bounces left; `b` is an `int`, so a negative budget is allowed. */
  function PlanStep<O>(m: MathLib, w: World<O>, ray: Ray, b: int): (r: Plan<O>)
    ensures r.Escape? <==> ClosestHit(w, ray).Miss?
    ensures b == 0 ==> Leaf(r)
  {
    match ClosestHit(w, ray)
    case Miss => Escape
    case HitAt(o, _, p, n) =>
      var mat := w.material(o);
      var refraction := if !mat.transmissive || b == 0 then NoRefraction else RefractionAt(m, ray, mat.refractiveIndex, p, n);
      var f := if refraction.Refracted? then Schlick(mat.reflectivity, CosIncidence(Incoming(m, ray, p), n)) else mat.reflectivity;
      var dir := MirrorDirection(m, ray.origin, p, n);
      var reflection := if refraction.TotalInternal? || b == 0 || f == 0.0 then None else Some(Ray(Add(p, Scale(dir, Epsilon)), dir, ray.refractiveIndex));
      Shade(o, p, n, mat.transmittance, f, refraction, reflection)
  }

  /** The ray the transmitted light is traced along, if any. */
  function TransmittedRay(refraction: Refraction): Option<Ray> {
    match refraction
    case NoRefraction => None
    case TotalInternal(r) => Some(r)
    case Refracted(r) => Some(r)
  }

  /** The unweighted mix: the direct light where the surface is opaque, the transmitted light where it is not. */
  function Mix(direct: Colour, t: Colour, transmitted: Colour): Colour {
    CAdd(CMul(direct, Complement(t)), CMul(transmitted, t))
  }

  /** The Fresnel-weighted mix: direct light and refracted light share what the reflection leaves. */
  function Blend(direct: Colour, t: Colour, f: real, reflected: Colour, refracted: Colour): Colour {
    Colour(BlendChannel(direct.r, t.r, f, reflected.r, refracted.r),
           BlendChannel(direct.g, t.g, f, reflected.g, refracted.g),
           BlendChannel(direct.b, t.b, f, reflected.b, refracted.b))
  }

  /** One channel of `direct·(1-T)·(1-F) + reflected·F + refracted·T·(1-F)`. */
  function BlendChannel(d: real, t: real, f: real, x: real, y: real): real {
    (1.0 - f) * (d * (1.0 - t)) + f * x + (1.0 - f) * (y * t)
  }

  /**
   * How a hit's colour is put together: with no reflected ray, the direct and
   * transmitted light mixed by the transmittance; with one, the
   * Fresnel-weighted blend of all three.
   */
  function Combine(direct: Colour, t: Colour, f: real, transmitted: Colour, reflected: Option<Colour>): Colour {
    match reflected
    case None => Mix(direct, t, transmitted)
    case Some(x) => Blend(direct, t, f, x, transmitted)
  }

  /**
   * `trace`: the colour seen along a ray with `b` bounces left. A ray that
   * hits nothing shows the background, whatever the budget; with no bounces
   * left a hit shows its direct light scaled by the transmittance's
   * complement, and nothing is traced further.
   */
  function Trace<O>(m: MathLib, w: World<O>, ray: Ray, b: int): (r: Colour)
    requires b >= 0
    ensures ClosestHit(w, ray).Miss? ==> r == w.background
    ensures b == 0 && ClosestHit(w, ray).HitAt? ==>
      var h := ClosestHit(w, ray);
      r == CMul(Illuminate(m, w, h.objectHit, h.location, h.normal, ray.origin, ray.refractiveIndex), Complement(w.material(h.objectHit).transmittance))
    decreases b
  {
    match PlanStep(m, w, ray, b)
    case Escape => w.background
    case Shade(o, p, n, t, f, refraction, reflection) =>
      var direct := Illuminate(m, w, o, p, n, ray.origin, ray.refractiveIndex);
      var transmitted := if TransmittedRay(refraction).Some? then Trace(m, w, TransmittedRay(refraction).value, b - 1) else Grey(0.0);
      var reflected := if reflection.Some? then Some(Trace(m, w, reflection.value, b - 1)) else None;
      Combine(direct, t, f, transmitted, reflected)
  }

  // ---------------------------------------------------------------------------
  // Properties of the tracer
  // ---------------------------------------------------------------------------

  /** The plan depends on the budget only through whether it is 0: a negative budget plans like an unlimited one and never reaches the base case. */
  lemma PlanBudgetOnlyZero<O>(m: MathLib, w: World<O>, ray: Ray, b: int, c: int)
    requires b != 0 && c != 0
    ensures PlanStep(m, w, ray, b) == PlanStep(m, w, ray, c)
  {
  }

  /** A plan that traces nothing further. */
  predicate Leaf<O>(s: Plan<O>) {
    s.Escape? || (TransmittedRay(s.refraction).None? && s.reflection.None?)
  }

  /** A planner that traces nothing further once the budget is spent. */
  ghost predicate Grounded<O>(planner: (Ray, int) -> Plan<O>) {
    forall r :: Leaf(planner(r, 0))
  }

  /** How deeply the calls nest below a call with budget `b`, for any planner that stops at budget 0. */
  function CallDepth<O>(planner: (Ray, int) -> Plan<O>, ray: Ray, b: int): nat
    requires b >= 0 && Grounded(planner)
    decreases b
  {
    var s := planner(ray, b);
    if Leaf(s) then 0
    else
      assert b != 0;
      var below := if TransmittedRay(s.refraction).Some? then 1 + CallDepth(planner, TransmittedRay(s.refraction).value, b - 1) else 0;
      var beside := if s.reflection.Some? then 1 + CallDepth(planner, s.reflection.value, b - 1) else 0;
      if below >= beside then below else beside
  }

  /** Every nested call spends one bounce, so the calls nest at most `b` deep. */
  lemma {:induction false} CallDepthBounded<O>(planner: (Ray, int) -> Plan<O>, ray: Ray, b: int)
    requires b >= 0 && Grounded(planner)
    ensures CallDepth(planner, ray, b) <= b
    decreases b
  {
    var s := planner(ray, b);
    if !Leaf(s) {
      if TransmittedRay(s.refraction).Some? {
        CallDepthBounded(planner, TransmittedRay(s.refraction).value, b - 1);
      }
      if s.reflection.Some? {
        CallDepthBounded(planner, s.reflection.value, b - 1);
      }
    }
  }

  /** `PlanStep` as a function value. */
  function Planner<O>(m: MathLib, w: World<O>): (planner: (Ray, int) -> Plan<O>)
    ensures Grounded(planner)
  {
    (r, k) => PlanStep(m, w, r, k)
  }

  /** How deeply `trace` nests below a call with budget `b`. */
  function Depth<O>(m: MathLib, w: World<O>, ray: Ray, b: int): nat
    requires b >= 0
  {
    CallDepth(Planner(m, w), ray, b)
  }

  /** Every recursive call of `trace` passes `bouncesLeft - 1`, so the recursion is at most `bouncesLeft` deep. */
  lemma DepthBounded<O>(m: MathLib, w: World<O>, ray: Ray, b: int)
    requires b >= 0
    ensures Depth(m, w, ray, b) <= b
  {
    CallDepthBounded(Planner(m, w), ray, b);
  }

  /**
   * The medium rule: a refracted ray travels in the object's medium, or in
   * air when it was already in that medium; every reflected ray stays in the
   * medium it came from.
   */
  lemma MediumSwap<O>(m: MathLib, w: World<O>, ray: Ray, b: int)
    requires ClosestHit(w, ray).HitAt?
    ensures var s := PlanStep(m, w, ray, b);
      var objectIndex := w.material(ClosestHit(w, ray).objectHit).refractiveIndex;
      && (s.refraction.Refracted? && ray.refractiveIndex == objectIndex ==> s.refraction.refracted.refractiveIndex == 1.0)
      && (s.refraction.Refracted? && ray.refractiveIndex != objectIndex ==> s.refraction.refracted.refractiveIndex == objectIndex)
      && (s.refraction.TotalInternal? ==> s.refraction.reflected.refractiveIndex == ray.refractiveIndex)
      && (s.reflection.Some? ==> s.reflection.value.refractiveIndex == ray.refractiveIndex)
  {
  }

  /**
   * Total internal reflection: when a transmissive surface with bounces left
   * bends the ray past the critical angle, all the transmitted light comes
   * back along the mirror ray, started off the surface along the normal, and
   * no Fresnel-weighted reflection is traced.
   */
  lemma TraceTotalInternal<O>(m: MathLib, w: World<O>, ray: Ray, b: int)
    requires SqrtLaws(m) && b > 0
    requires ClosestHit(w, ray).HitAt?
    requires var h := ClosestHit(w, ray);
      var mat := w.material(h.objectHit);
      var next := ExitIndex(ray.refractiveIndex, mat.refractiveIndex);
      && mat.transmissive && next != 0.0
      && PastCriticalAngle(ray.refractiveIndex / next, CosIncidence(Incoming(m, ray, h.location), h.normal))
    ensures var h := ClosestHit(w, ray);
      var mat := w.material(h.objectHit);
      var mirror := Ray(Add(h.location, Scale(h.normal, Epsilon)), MirrorDirection(m, ray.origin, h.location, h.normal), ray.refractiveIndex);
      && PlanStep(m, w, ray, b).reflection.None?
      && Trace(m, w, ray, b)
         == Mix(Illuminate(m, w, h.objectHit, h.location, h.normal, ray.origin, ray.refractiveIndex), mat.transmittance, Trace(m, w, mirror, b - 1))
  {
    var h := ClosestHit(w, ray);
    var mat := w.material(h.objectHit);
    var next := ExitIndex(ray.refractiveIndex, mat.refractiveIndex);
    TotallyReflectedMeaning(m, ray.refractiveIndex / next, CosIncidence(Incoming(m, ray, h.location), h.normal));
    var mirror := Ray(Add(h.location, Scale(h.normal, Epsilon)), MirrorDirection(m, ray.origin, h.location, h.normal), ray.refractiveIndex);
    assert RefractionAt(m, ray, mat.refractiveIndex, h.location, h.normal) == TotalInternal(mirror);
    assert PlanStep(m, w, ray, b).refraction == TotalInternal(mirror);
    assert PlanStep(m, w, ray, b).reflection.None?;
  }

  /**
   * A refracting surface: when the ray passes the surface, the reflectance
   * is Schlick's, which for a base reflectivity in [0, 1] and unit incoming
   * direction and normal lies between the base and 1.
   */
  lemma RefractedReflectance<O>(m: MathLib, w: World<O>, ray: Ray, b: int)
    requires SqrtLaws(m)
    requires ClosestHit(w, ray).HitAt?
    requires PlanStep(m, w, ray, b).refraction.Refracted?
    requires var h := ClosestHit(w, ray);
      && 0.0 <= w.material(h.objectHit).reflectivity <= 1.0
      && NormSq(h.normal) == 1.0 && h.location != ray.origin
    ensures var h := ClosestHit(w, ray);
      var r := w.material(h.objectHit).reflectivity;
      var f := PlanStep(m, w, ray, b).fresnel;
      && f == Schlick(r, CosIncidence(Incoming(m, ray, h.location), h.normal))
      && r <= f <= 1.0
  {
    var h := ClosestHit(w, ray);
    var i := Incoming(m, ray, h.location);
    assert Sub(h.location, ray.origin) != Zero;
    NormalisedUnit(m, Sub(h.location, ray.origin));
    CosIncidenceInUnit(i, h.normal);
    SchlickBounds(w.material(h.objectHit).reflectivity, CosIncidence(i, h.normal));
  }

  // ---------------------------------------------------------------------------
  // Conservation of light
  // ---------------------------------------------------------------------------

  /**
   * One channel of the blend: a combination of the direct, reflected and
   * refracted channels with weights `(1-T)(1-F)`, `F` and `T(1-F)` that add up
   * to 1, and that are all non-negative when `F` and `T` are in [0, 1].
   */
  lemma ChannelWeights(d: real, t: real, f: real, x: real, y: real)
    ensures BlendChannel(d, t, f, x, y) == ((1.0 - t) * (1.0 - f)) * d + f * x + (t * (1.0 - f)) * y
    ensures (1.0 - t) * (1.0 - f) + f + t * (1.0 - f) == 1.0
    ensures 0.0 <= f <= 1.0 && 0.0 <= t <= 1.0 ==> 0.0 <= (1.0 - t) * (1.0 - f) && 0.0 <= t * (1.0 - f)
  {
    if 0.0 <= f <= 1.0 && 0.0 <= t <= 1.0 {
      NonNegativeProduct(1.0 - t, 1.0 - f);
      NonNegativeProduct(t, 1.0 - f);
    }
  }

  /** A combination with non-negative weights summing to 1 stays within [0, 1] and below the plain weighted sum. */
  lemma ConvexChannel(d: real, t: real, f: real, x: real, y: real)
    requires 0.0 <= f <= 1.0 && 0.0 <= t <= 1.0
    requires 0.0 <= d <= 1.0 && 0.0 <= x <= 1.0 && 0.0 <= y <= 1.0
    ensures 0.0 <= BlendChannel(d, t, f, x, y) <= 1.0
  {
    ChannelWeights(d, t, f, x, y);
    var a, c := (1.0 - t) * (1.0 - f), t * (1.0 - f);
    NonNegativeProduct(a, d);
    NonNegativeProduct(f, x);
    NonNegativeProduct(c, y);
    NonNegativeProduct(a, 1.0 - d);
    NonNegativeProduct(f, 1.0 - x);
    NonNegativeProduct(c, 1.0 - y);
  }

  /** The blend's three weights sum to 1 per channel, so with `F` and the transmittance in [0, 1] it mixes colours in [0, 1] into a colour in [0, 1]. */
  lemma BlendIsConvex(direct: Colour, t: Colour, f: real, reflected: Colour, refracted: Colour)
    requires 0.0 <= f <= 1.0 && InUnit(t)
    requires InUnit(direct) && InUnit(reflected) && InUnit(refracted)
    ensures InUnit(Blend(direct, t, f, reflected, refracted))
  {
    ConvexChannel(direct.r, t.r, f, reflected.r, refracted.r);
    ConvexChannel(direct.g, t.g, f, reflected.g, refracted.g);
    ConvexChannel(direct.b, t.b, f, reflected.b, refracted.b);
  }

  /** With a zero reflectance the blend is the base case's mix, whatever the reflected colour: the `F == 0` test only saves a trace. */
  lemma BlendWithoutReflectance(direct: Colour, t: Colour, reflected: Colour, refracted: Colour)
    ensures Blend(direct, t, 0.0, reflected, refracted) == Mix(direct, t, refracted)
  {
  }

  /** The unweighted mix of two colours in [0, 1] by a transmittance in [0, 1] is in [0, 1]. */
  lemma MixInUnit(direct: Colour, t: Colour, transmitted: Colour)
    requires InUnit(direct) && InUnit(t) && InUnit(transmitted)
    ensures InUnit(Mix(direct, t, transmitted))
  {
    BlendWithoutReflectance(direct, t, transmitted, transmitted);
    BlendIsConvex(direct, t, 0.0, transmitted, transmitted);
  }

  /**
   * What a hit must offer for the tracer to conserve light: local
   * illumination in [0, 1], a unit normal, and a hit point away from the
   * ray's origin, so that the incoming direction is a unit vector.
   */
  predicate LitInUnit<O>(m: MathLib, w: World<O>, ray: Ray)
    requires ClosestHit(w, ray).HitAt?
  {
    var h := ClosestHit(w, ray);
    && InUnit(Illuminate(m, w, h.objectHit, h.location, h.normal, ray.origin, ray.refractiveIndex))
    && NormSq(h.normal) == 1.0
    && h.location != ray.origin
  }

  /** Combining colours in [0, 1] with a reflectance and a transmittance in [0, 1] gives a colour in [0, 1]. */
  lemma CombineInUnit(direct: Colour, t: Colour, f: real, transmitted: Colour, reflected: Option<Colour>)
    requires 0.0 <= f <= 1.0 && InUnit(t)
    requires InUnit(direct) && InUnit(transmitted) && (reflected.Some? ==> InUnit(reflected.value))
    ensures InUnit(Combine(direct, t, f, transmitted, reflected))
  {
    if reflected.Some? {
      BlendIsConvex(direct, t, f, reflected.value, transmitted);
    } else {
      MixInUnit(direct, t, transmitted);
    }
  }

  /** A ray that hits something sees local illumination in [0, 1] there. */
  predicate LitWhereHit<O>(m: MathLib, w: World<O>, ray: Ray) {
    ClosestHit(w, ray).HitAt? ==> LitInUnit(m, w, ray)
  }

  /** A world without light sources or amplifying surfaces. */
  ghost predicate Physical<O(!new)>(m: MathLib, w: World<O>) {
    && InUnit(w.background)
    && (forall o :: InUnit(w.material(o).transmittance) && 0.0 <= w.material(o).reflectivity <= 1.0)
    && (forall ray: Ray :: LitWhereHit(m, w, ray))
  }

  /** In a physical world a step's direct light, transmittance and reflectance are all in [0, 1]. */
  lemma PlanWeightsInUnit<O(!new)>(m: MathLib, w: World<O>, ray: Ray, b: int)
    requires SqrtLaws(m) && Physical(m, w)
    ensures var s := PlanStep(m, w, ray, b);
      s.Shade? ==>
        && InUnit(Illuminate(m, w, s.target, s.location, s.normal, ray.origin, ray.refractiveIndex))
        && InUnit(s.transmittance)
        && 0.0 <= s.fresnel <= 1.0
  {
    assert LitWhereHit(m, w, ray);
    if PlanStep(m, w, ray, b).Shade? && PlanStep(m, w, ray, b).refraction.Refracted? {
      RefractedReflectance(m, w, ray, b);
    }
  }

  /** Every ray traced with `b` bounces left returns a colour in [0, 1]. */
  ghost predicate TracesInUnit<O(!new)>(m: MathLib, w: World<O>, b: int)
    requires b >= 0
  {
    forall ray: Ray :: InUnit(Trace(m, w, ray, b))
  }

  /** One step of the tracer keeps light in [0, 1] when the traces it combines do. */
  lemma TraceStepInUnit<O(!new)>(m: MathLib, w: World<O>, ray: Ray, b: int)
    requires SqrtLaws(m) && b >= 0 && Physical(m, w)
    requires b >= 1 ==> TracesInUnit(m, w, b - 1)
    ensures InUnit(Trace(m, w, ray, b))
  {
    var s := PlanStep(m, w, ray, b);
    if s.Shade? {
      PlanWeightsInUnit(m, w, ray, b);
      var transmitted := if TransmittedRay(s.refraction).Some? then Trace(m, w, TransmittedRay(s.refraction).value, b - 1) else Grey(0.0);
      var reflected := if s.reflection.Some? then Some(Trace(m, w, s.reflection.value, b - 1)) else None;
      CombineInUnit(Illuminate(m, w, s.target, s.location, s.normal, ray.origin, ray.refractiveIndex), s.transmittance, s.fresnel, transmitted, reflected);
    }
  }

  /** Induction on the bounce budget: with any budget, every traced ray stays in [0, 1]. */
  lemma {:induction false} AllTracesInUnit<O(!new)>(m: MathLib, w: World<O>, b: int)
    requires SqrtLaws(m) && b >= 0 && Physical(m, w)
    ensures TracesInUnit(m, w, b)
    decreases b
  {
    if b >= 1 {
      AllTracesInUnit(m, w, b - 1);
    }
    forall ray: Ray
      ensures InUnit(Trace(m, w, ray, b))
    {
      TraceStepInUnit(m, w, ray, b);
    }
  }

  /**
   * Conservation of light through the whole recursion: in a physical world
   * every colour the tracer returns is in [0, 1], since each step mixes
   * colours in [0, 1] with weights that sum to 1.
   */
  lemma TraceInUnit<O(!new)>(m: MathLib, w: World<O>, ray: Ray, b: int)
    requires SqrtLaws(m) && b >= 0 && Physical(m, w)
    ensures InUnit(Trace(m, w, ray, b))
  {
    AllTracesInUnit(m, w, b);
  }
}
