/**
 * The result of casting a ray at the scene, and the scene itself: its
 * objects, point lights, ambient and background colours and camera pose,
 * with the two queries the renderer asks of it.
 */
module RaycastHit {
  import opened JavaMath
  import opened Vectors
  import opened Colours
  import opened Results

  /** How far a ray travelled before it hit something; a miss is infinitely far. */
  datatype Distance = Finite(value: real) | Infinite

  /** Java's strict `<` on two distances, where positive infinity is above every finite distance and not below itself. */
  predicate Closer(a: Distance, b: Distance) {
    match a
    case Infinite => false
    case Finite(x) => b.Infinite? || x < b.value
  }

  /** Java's `<=` between a distance and a finite bound: an infinite distance is never within it. */
  predicate NoFartherThan(a: Distance, x: real) {
    a.Finite? && a.value <= x
  }

  /**
   * A ray's hit: the object, the ray parameter at which it was hit, the
   * point and the surface normal there. `Miss` is the default-constructed
   * hit, with no object and an infinite distance.
   */
  datatype Hit<O> = Miss | HitAt(objectHit: O, distance: real, location: Vec3, normal: Vec3) {
    function GetDistance(): Distance {
      if Miss? then Infinite else Finite(distance)
    }
  }

  /** What a shape's intersection test finds before the hit is tagged with the object: parameter, point and normal. */
  datatype SurfaceHit = SurfaceHit(distance: real, location: Vec3, normal: Vec3)

  /** `new RaycastHit(this, ...)` for a surface hit, and the default miss otherwise. */
  function HitOn<O>(o: O, s: Option<SurfaceHit>): (h: Hit<O>)
    ensures h.Miss? <==> s.None?
    ensures s.Some? ==> h.objectHit == o && h.GetDistance() == Finite(s.value.distance)
  {
    match s
    case None => Miss
    case Some(sh) => HitAt(o, sh.distance, sh.location, sh.normal)
  }

  /** A point light source: where it is, its colour and its intensity. */
  datatype PointLight = PointLight(position: Vec3, colour: Colour, intensity: real)

  /** Everything that is rendered. */
  datatype Scene<O> = Scene(
    objects: seq<O>,
    pointLights: seq<PointLight>,
    ambientLight: Colour,
    backgroundColour: Colour,
    cameraOrigin: Vec3,
    cameraRotation: Vec3)

  /** A fresh scene: no objects and no lights, white ambient light, a near-black background and the camera at the origin, unrotated. */
  function NewScene<O>(): (s: Scene<O>)
    ensures s.objects == [] && s.pointLights == []
    ensures s.ambientLight == Grey(1.0)
    ensures s.backgroundColour == Grey(0.0001)
    ensures s.cameraOrigin == Zero && s.cameraRotation == Zero
  {
    Scene([], [], Grey(1.0), Grey(0.0001), Zero, Zero)
  }

  /** Adding an object appends it to the object list and changes nothing else. */
  function AddObject<O>(s: Scene<O>, o: O): (r: Scene<O>)
    ensures r.objects == s.objects + [o]
    ensures r.pointLights == s.pointLights
    ensures r.ambientLight == s.ambientLight && r.backgroundColour == s.backgroundColour
    ensures r.cameraOrigin == s.cameraOrigin && r.cameraRotation == s.cameraRotation
  {
    s.(objects := s.objects + [o])
  }

  /** Adding a light appends it to the light list and changes nothing else. */
  function AddPointLight<O>(s: Scene<O>, l: PointLight): (r: Scene<O>)
    ensures r.pointLights == s.pointLights + [l]
    ensures r.objects == s.objects
    ensures r.ambientLight == s.ambientLight && r.backgroundColour == s.backgroundColour
    ensures r.cameraOrigin == s.cameraOrigin && r.cameraRotation == s.cameraRotation
  {
    s.(pointLights := s.pointLights + [l])
  }

  // ---------------------------------------------------------------------------
  // The closest hit
  // ---------------------------------------------------------------------------

  /**
   * The scan over the objects' hits in list order, starting from a miss and
   * replacing the current hit only by a strictly closer one.
   */
  function Closest<O>(hits: seq<Hit<O>>): Hit<O>
    decreases |hits|
  {
    if |hits| == 0 then Miss
    else
      var best := Closest(hits[..|hits| - 1]);
      var h := hits[|hits| - 1];
      if Closer(h.GetDistance(), best.GetDistance()) then h else best
  }

  /**
   * What the scan is meant to find: a miss exactly when every object misses;
   * otherwise the hit at some position k that no hit is closer than, and that
   * is strictly closer than every hit before position k, so that among equal
   * distances the earliest object wins.
   */
  ghost predicate IsFirstNearest<O>(hits: seq<Hit<O>>, r: Hit<O>) {
    if r.Miss? then
      forall i :: 0 <= i < |hits| ==> hits[i].Miss?
    else
      exists k :: 0 <= k < |hits| && hits[k] == r && FirstNearestAt(hits, k)
  }

  ghost predicate FirstNearestAt<O>(hits: seq<Hit<O>>, k: int)
    requires 0 <= k < |hits|
  {
    && (forall j :: 0 <= j < |hits| ==> !Closer(hits[j].GetDistance(), hits[k].GetDistance()))
    && (forall j :: 0 <= j < k ==> Closer(hits[k].GetDistance(), hits[j].GetDistance()))
  }

  lemma CloserOrder(a: Distance, b: Distance, c: Distance)
    ensures !Closer(a, a)
    ensures Closer(a, b) && Closer(b, c) ==> Closer(a, c)
    ensures !Closer(a, b) && Closer(c, b) ==> Closer(c, a)
    ensures !Closer(a, b) && Closer(a, c) ==> Closer(b, c)
  {
  }

  /** The scan finds the first nearest hit. */
  lemma {:induction false} ClosestIsFirstNearest<O>(hits: seq<Hit<O>>)
    ensures IsFirstNearest(hits, Closest(hits))
    decreases |hits|
  {
    if |hits| > 0 {
      var n := |hits| - 1;
      var p := hits[..n];
      var h := hits[n];
      var best := Closest(p);
      ClosestIsFirstNearest(p);
      assert forall j :: 0 <= j < n ==> hits[j] == p[j];
      if Closer(h.GetDistance(), best.GetDistance()) {
        forall j | 0 <= j < |hits|
          ensures !Closer(hits[j].GetDistance(), h.GetDistance())
        {
          if j < n {
            if best.Miss? {
              assert p[j].Miss?;
            } else {
              var k :| 0 <= k < n && p[k] == best && FirstNearestAt(p, k);
              CloserOrder(hits[j].GetDistance(), h.GetDistance(), best.GetDistance());
            }
          } else {
            CloserOrder(h.GetDistance(), h.GetDistance(), h.GetDistance());
          }
        }
        forall j | 0 <= j < n
          ensures Closer(h.GetDistance(), hits[j].GetDistance())
        {
          if best.Miss? {
            assert p[j].Miss?;
          } else {
            var k :| 0 <= k < n && p[k] == best && FirstNearestAt(p, k);
            CloserOrder(p[j].GetDistance(), best.GetDistance(), h.GetDistance());
          }
        }
        assert FirstNearestAt(hits, n);
      } else if best.Miss? {
        assert h.Miss?;
      } else {
        var k :| 0 <= k < n && p[k] == best && FirstNearestAt(p, k);
        assert hits[k] == best;
        assert FirstNearestAt(hits, k);
      }
    }
  }

  /** The first nearest hit is unique, so the specification pins the scan's result down completely. */
  lemma FirstNearestUnique<O>(hits: seq<Hit<O>>, r: Hit<O>)
    requires IsFirstNearest(hits, r)
    ensures r == Closest(hits)
  {
    var c := Closest(hits);
    ClosestIsFirstNearest(hits);
    if r.Miss? {
      if c.HitAt? {
        assert false;
      }
    } else {
      var k :| 0 <= k < |hits| && hits[k] == r && FirstNearestAt(hits, k);
      if c.Miss? {
        assert false;
      } else {
        var k' :| 0 <= k' < |hits| && hits[k'] == c && FirstNearestAt(hits, k');
        if k < k' || k' < k {
          assert false;
        }
      }
    }
  }

  /** A miss never replaces the current closest hit. */
  lemma ClosestIgnoresMiss<O>(hits: seq<Hit<O>>)
    ensures Closest(hits + [Miss]) == Closest(hits)
  {
    assert (hits + [Miss])[..|hits|] == hits;
  }

  // ---------------------------------------------------------------------------
  // Compound transmittance
  // ---------------------------------------------------------------------------

  /** A hit lets light through to a light at distance `d` when it lies strictly between the ray's origin and the light. */
  predicate Transmits<O>(h: Hit<O>, d: real) {
    h.HitAt? && 0.0 < h.distance < d
  }

  /** One step of the transmittance product. */
  function Attenuate<O>(acc: Colour, h: Hit<O>, transmittance: O -> Colour, d: real): Colour {
    if Transmits(h, d) then CMul(acc, transmittance(h.objectHit)) else acc
  }

  /** White light scaled, channel by channel and in list order, by the transmittance of every hit between the origin and the light. */
  function Compound<O>(hits: seq<Hit<O>>, transmittance: O -> Colour, d: real): Colour
    decreases |hits|
  {
    if |hits| == 0 then Grey(1.0)
    else Attenuate(Compound(hits[..|hits| - 1], transmittance, d), hits[|hits| - 1], transmittance, d)
  }

  /** With nothing between the origin and the light, the compound transmittance is exactly white. */
  lemma {:induction false} CompoundNothingBetween<O>(hits: seq<Hit<O>>, transmittance: O -> Colour, d: real)
    requires forall i :: 0 <= i < |hits| ==> !Transmits(hits[i], d)
    ensures Compound(hits, transmittance, d) == Grey(1.0)
    decreases |hits|
  {
    if |hits| > 0 {
      var p := hits[..|hits| - 1];
      assert forall i :: 0 <= i < |p| ==> p[i] == hits[i];
      CompoundNothingBetween(p, transmittance, d);
    }
  }

  /** When every object hit lets through a fraction in [0, 1] of each channel, so does the compound. */
  lemma {:induction false} CompoundInUnit<O>(hits: seq<Hit<O>>, transmittance: O -> Colour, d: real)
    requires forall i :: 0 <= i < |hits| && hits[i].HitAt? ==> InUnit(transmittance(hits[i].objectHit))
    ensures InUnit(Compound(hits, transmittance, d))
    decreases |hits|
  {
    if |hits| > 0 {
      var n := |hits| - 1;
      var acc := Compound(hits[..n], transmittance, d);
      assert forall i :: 0 <= i < n ==> hits[..n][i] == hits[i];
      CompoundInUnit(hits[..n], transmittance, d);
      if Transmits(hits[n], d) {
        var t := transmittance(hits[n].objectHit);
        UnitProduct(acc.r, t.r);
        UnitProduct(acc.g, t.g);
        UnitProduct(acc.b, t.b);
      }
    }
  }

  /** A bound on every object's transmittance bounds the transmittance of every object hit. */
  lemma TransmitsInUnit<O>(hits: seq<Hit<O>>, transmittance: O -> Colour)
    requires forall o :: InUnit(transmittance(o))
    ensures forall i :: 0 <= i < |hits| && hits[i].HitAt? ==> InUnit(transmittance(hits[i].objectHit))
  {
  }

  /** A miss never contributes to the product. */
  lemma CompoundIgnoresMiss<O>(hits: seq<Hit<O>>, transmittance: O -> Colour, d: real)
    ensures Compound(hits + [Miss], transmittance, d) == Compound(hits, transmittance, d)
  {
    assert (hits + [Miss])[..|hits|] == hits;
  }

  lemma AttenuateCommutes<O>(c: Colour, x: Hit<O>, y: Hit<O>, transmittance: O -> Colour, d: real)
    ensures Attenuate(Attenuate(c, x, transmittance, d), y, transmittance, d)
         == Attenuate(Attenuate(c, y, transmittance, d), x, transmittance, d)
  {
    if Transmits(x, d) && Transmits(y, d) {
      var a, b := transmittance(x.objectHit), transmittance(y.objectHit);
      assert (c.r * a.r) * b.r == (c.r * b.r) * a.r;
      assert (c.g * a.g) * b.g == (c.g * b.g) * a.g;
      assert (c.b * a.b) * b.b == (c.b * b.b) * a.b;
    }
  }

  /** Any one hit's factor can be applied last. */
  lemma {:induction false} CompoundRemove<O>(s: seq<Hit<O>>, i: int, transmittance: O -> Colour, d: real)
    requires 0 <= i < |s|
    ensures Compound(s, transmittance, d)
         == Attenuate(Compound(s[..i] + s[i + 1..], transmittance, d), s[i], transmittance, d)
    decreases |s|
  {
    var n := |s| - 1;
    if i < n {
      var p := s[..n];
      var y := s[n];
      CompoundRemove(p, i, transmittance, d);
      var q := p[..i] + p[i + 1..];
      assert (q + [y])[..|q|] == q;
      assert s[..i] + s[i + 1..] == q + [y];
      AttenuateCommutes(Compound(q, transmittance, d), p[i], y, transmittance, d);
    } else {
      assert s[..i] + s[i + 1..] == s[..n];
    }
  }

  /** The compound transmittance does not depend on the order of the objects. */
  lemma {:induction false} CompoundPermutation<O>(a: seq<Hit<O>>, b: seq<Hit<O>>, transmittance: O -> Colour, d: real)
    requires multiset(a) == multiset(b)
    ensures Compound(a, transmittance, d) == Compound(b, transmittance, d)
    decreases |a|
  {
    if |a| > 0 {
      var n := |a| - 1;
      var x := a[n];
      assert x in multiset(b);
      var i :| 0 <= i < |b| && b[i] == x;
      var b' := b[..i] + b[i + 1..];
      assert b == b[..i] + [x] + b[i + 1..];
      assert a == a[..n] + [x];
      assert multiset(a) == multiset(a[..n]) + multiset{x};
      assert multiset(b) == multiset(b[..i]) + multiset{x} + multiset(b[i + 1..]);
      assert multiset(b') == multiset(b[..i]) + multiset(b[i + 1..]);
      assert multiset(a[..n]) == multiset(a) - multiset{x};
      assert multiset(b') == multiset(b) - multiset{x};
      CompoundPermutation(a[..n], b', transmittance, d);
      CompoundRemove(b, i, transmittance, d);
    } else {
      assert |b| == 0;
    }
  }

  // ---------------------------------------------------------------------------
  // The scene's queries
  // ---------------------------------------------------------------------------

  /** Each object's hit by the current ray, in object order. */
  function HitsOf<O>(objects: seq<O>, intersect: O -> Hit<O>): (hits: seq<Hit<O>>)
    ensures |hits| == |objects|
    ensures forall i :: 0 <= i < |objects| ==> hits[i] == intersect(objects[i])
  {
    seq(|objects|, i requires 0 <= i < |objects| => intersect(objects[i]))
  }

  /**
   * `Scene.findClosestIntersection`: a miss exactly when every object
   * misses; otherwise the hit of some object, with no object's hit closer,
   * the earliest such object in the list.
   */
  function FindClosestIntersection<O>(s: Scene<O>, intersect: O -> Hit<O>): (r: Hit<O>)
    ensures r.Miss? <==> forall i :: 0 <= i < |s.objects| ==> intersect(s.objects[i]).Miss?
    ensures forall i :: 0 <= i < |s.objects| ==> !Closer(intersect(s.objects[i]).GetDistance(), r.GetDistance())
  {
    var hits := HitsOf(s.objects, intersect);
    ClosestIsFirstNearest(hits);
    Closest(hits)
  }

  /**
   * `Scene.findCompoundTransmittance`: the product of the transmittances of
   * the objects hit strictly before the light. It is white when nothing lies
   * in between, and a fraction of each channel when every object passes one.
   */
  function FindCompoundTransmittance<O>(s: Scene<O>, intersect: O -> Hit<O>, transmittance: O -> Colour, d: real): (r: Colour)
    ensures (forall i :: 0 <= i < |s.objects| ==> !Transmits(intersect(s.objects[i]), d)) ==> r == Grey(1.0)
    ensures (forall i :: 0 <= i < |s.objects| && intersect(s.objects[i]).HitAt? ==>
               InUnit(transmittance(intersect(s.objects[i]).objectHit))) ==> InUnit(r)
  {
    var hits := HitsOf(s.objects, intersect);
    CompoundBounds(hits, transmittance, d);
    Compound(hits, transmittance, d)
  }

  /** The two facts about the product, each under its own condition. */
  lemma CompoundBounds<O>(hits: seq<Hit<O>>, transmittance: O -> Colour, d: real)
    ensures (forall i :: 0 <= i < |hits| ==> !Transmits(hits[i], d)) ==> Compound(hits, transmittance, d) == Grey(1.0)
    ensures (forall i :: 0 <= i < |hits| && hits[i].HitAt? ==> InUnit(transmittance(hits[i].objectHit))) ==>
      InUnit(Compound(hits, transmittance, d))
  {
    if forall i :: 0 <= i < |hits| ==> !Transmits(hits[i], d) {
      CompoundNothingBetween(hits, transmittance, d);
    }
    if forall i :: 0 <= i < |hits| && hits[i].HitAt? ==> InUnit(transmittance(hits[i].objectHit)) {
      CompoundInUnit(hits, transmittance, d);
    }
  }

  /** A scene with no objects always misses, and lets all light through. */
  lemma EmptySceneQueries<O>(s: Scene<O>, intersect: O -> Hit<O>, transmittance: O -> Colour, d: real)
    requires s.objects == []
    ensures FindClosestIntersection(s, intersect) == Miss
    ensures FindCompoundTransmittance(s, intersect, transmittance, d) == Grey(1.0)
  {
  }
}
